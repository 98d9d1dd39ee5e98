/** The chained global replaces of the report writers, and the readers that undo them. */
module Escaping {
  import opened Text

  datatype Rule = Rule(ch: char, text: string)

  /** `s.replace(/ch/g, text)`. */
  function ReplaceAll(s: string, ch: char, text: string): string {
    if s == [] then []
    else (if s[0] == ch then text else [s[0]]) + ReplaceAll(s[1..], ch, text)
  }

  /** The replaces one after the other, each over the whole result of the one before. */
  function ReplaceChain(s: string, rules: seq<Rule>): string
    decreases |rules|
  {
    if rules == [] then s
    else ReplaceChain(ReplaceAll(s, rules[0].ch, rules[0].text), rules[1..])
  }

  /** What a simultaneous replacement puts in place of one character. */
  function Image(c: char, rules: seq<Rule>): string {
    if rules == [] then [c]
    else if rules[0].ch == c then rules[0].text
    else Image(c, rules[1..])
  }

  function OnePass(s: string, rules: seq<Rule>): string {
    if s == [] then [] else Image(s[0], rules) + OnePass(s[1..], rules)
  }

  /** No rule rewrites what an earlier rule has written. */
  ghost predicate Ordered(rules: seq<Rule>) {
    forall i, j :: 0 <= i < j < |rules| ==> rules[j].ch !in rules[i].text
  }

  lemma {:induction false} ReplaceAllConcat(a: string, b: string, ch: char, text: string)
    ensures ReplaceAll(a + b, ch, text) == ReplaceAll(a, ch, text) + ReplaceAll(b, ch, text)
  {
    if a == [] {
      assert a + b == b;
    } else {
      assert (a + b)[1..] == a[1..] + b;
      ReplaceAllConcat(a[1..], b, ch, text);
    }
  }

  lemma {:induction false} ReplaceChainConcat(a: string, b: string, rules: seq<Rule>)
    ensures ReplaceChain(a + b, rules) == ReplaceChain(a, rules) + ReplaceChain(b, rules)
    decreases |rules|
  {
    if rules != [] {
      var r := rules[0];
      ReplaceAllConcat(a, b, r.ch, r.text);
      ReplaceChainConcat(ReplaceAll(a, r.ch, r.text), ReplaceAll(b, r.ch, r.text), rules[1..]);
    }
  }

  lemma {:induction false} ReplaceAllAbsent(s: string, ch: char, text: string)
    requires ch !in s
    ensures ReplaceAll(s, ch, text) == s
  {
    if s != [] {
      ReplaceAllAbsent(s[1..], ch, text);
      assert s == [s[0]] + s[1..];
    }
  }

  lemma {:induction false} ReplaceChainAbsent(s: string, rules: seq<Rule>)
    requires forall r <- rules :: r.ch !in s
    ensures ReplaceChain(s, rules) == s
  {
    if rules != [] {
      assert rules[0] in rules;
      ReplaceAllAbsent(s, rules[0].ch, rules[0].text);
      ReplaceChainAbsent(s, rules[1..]);
    }
  }

  lemma {:induction false} ReplaceChainChar(c: char, rules: seq<Rule>)
    requires Ordered(rules)
    ensures ReplaceChain([c], rules) == Image(c, rules)
  {
    if rules != [] {
      var r := rules[0];
      assert ReplaceAll([c], r.ch, r.text) == if c == r.ch then r.text else [c];
      if c == r.ch {
        ReplaceChainAbsent(r.text, rules[1..]);
      } else {
        ReplaceChainChar(c, rules[1..]);
      }
    }
  }

  /** Escaping in sequence is escaping each character once, whatever the text. */
  lemma {:induction false} ChainIsOnePass(s: string, rules: seq<Rule>)
    requires Ordered(rules)
    ensures ReplaceChain(s, rules) == OnePass(s, rules)
  {
    if s == [] {
      ReplaceChainAbsent(s, rules);
    } else {
      assert s == [s[0]] + s[1..];
      ReplaceChainConcat([s[0]], s[1..], rules);
      ReplaceChainChar(s[0], rules);
      ChainIsOnePass(s[1..], rules);
    }
  }

  // ----- Line ends -----

  /** What readers of XML documents and of PDF literal strings make of line ends: CR LF and a lone CR become one LF. */
  function EolNormalised(s: string): string
    decreases |s|
  {
    if s == [] then []
    else if "\r\n" <= s then ['\n'] + EolNormalised(s[2..])
    else if s[0] == '\r' then ['\n'] + EolNormalised(s[1..])
    else [s[0]] + EolNormalised(s[1..])
  }

  lemma {:induction false} EolNormalisedId(s: string)
    ensures EolNormalised(s) == s <==> '\r' !in s
    ensures '\r' !in EolNormalised(s)
    ensures |EolNormalised(s)| <= |s|
    decreases |s|
  {
    if s == [] {
    } else if "\r\n" <= s {
      EolNormalisedId(s[2..]);
      assert s[0] == '\r';
    } else {
      EolNormalisedId(s[1..]);
      assert s == [s[0]] + s[1..];
      if s[0] != '\r' && EolNormalised(s) == s {
        assert EolNormalised(s)[1..] == EolNormalised(s[1..]);
      }
    }
  }

  // ----- XML -----

  const EXPORTER_RULES: seq<Rule> :=
    [Rule('&', "&amp;"), Rule('<', "&lt;"), Rule('>', "&gt;"), Rule('"', "&quot;")]

  const UTIL_RULES: seq<Rule> := EXPORTER_RULES + [Rule('\'', "&apos;")]

  ghost predicate IsXmlEscaper(rules: seq<Rule>) { rules == EXPORTER_RULES || rules == UTIL_RULES }

  /** The characters a document may hold (XML 1.0, section 2.2). */
  predicate IsXmlChar(c: char) {
    c in {'\t', '\n', '\r'} || (' ' <= c && c != '\U{FFFE}' && c != '\U{FFFF}')
  }

  predicate AllXmlChars(s: string) { forall c <- s :: IsXmlChar(c) }

  /** What an XML 1.0 reader makes of character data: None for a character no document may hold, otherwise the
      data with its line ends normalised (section 2.11) and then its references replaced. */
  function XmlDecode(s: string): Option<string> {
    if AllXmlChars(s) then DecodeReferences(EolNormalised(s)) else None
  }

  /** Character data in which every `&` starts one of the predefined entities (sections 2.4 and 4.6); None for
      markup and for any other reference, which the writers never make. */
  function DecodeReferences(s: string): Option<string>
    decreases |s|
  {
    if s == [] then Some("")
    else if s[0] == '<' || "]]>" <= s then None
    else if s[0] != '&' then Prepend(s[0], DecodeReferences(s[1..]))
    else if "&amp;" <= s then Prepend('&', DecodeReferences(s[5..]))
    else if "&lt;" <= s then Prepend('<', DecodeReferences(s[4..]))
    else if "&gt;" <= s then Prepend('>', DecodeReferences(s[4..]))
    else if "&quot;" <= s then Prepend('"', DecodeReferences(s[6..]))
    else if "&apos;" <= s then Prepend('\'', DecodeReferences(s[6..]))
    else None
  }

  function Prepend(c: char, rest: Option<string>): Option<string> {
    if rest.None? then None else Some([c] + rest.value)
  }

  lemma DecodePlain(c: char, rest: string)
    requires c !in {'&', '<'} && '>' !in rest
    ensures DecodeReferences([c] + rest) == Prepend(c, DecodeReferences(rest))
  {
    var s := [c] + rest;
    assert |rest| > 1 ==> s[2] == rest[1] && rest[1] in rest;
    assert s[1..] == rest;
  }

  lemma DecodeImage(c: char, rules: seq<Rule>, rest: string)
    requires IsXmlEscaper(rules) && '>' !in rest
    ensures DecodeReferences(Image(c, rules) + rest) == Prepend(c, DecodeReferences(rest))
  {
    var image := Image(c, rules);
    XmlImage(c, rules);
    if image == [c] {
      DecodePlain(c, rest);
    } else {
      assert (image + rest)[|image|..] == rest;
      assert image <= image + rest;
      assert (image + rest)[0] == '&';
      assert (image + rest)[1] == image[1] && (image + rest)[2] == image[2];
    }
  }

  lemma XmlImage(c: char, rules: seq<Rule>)
    requires IsXmlEscaper(rules)
    ensures Image(c, rules) ==
            if c == '&' then "&amp;" else if c == '<' then "&lt;" else if c == '>' then "&gt;"
            else if c == '"' then "&quot;" else if c == '\'' && rules == UTIL_RULES then "&apos;" else [c]
  {
    var r0 := rules[1..];
    var r1 := r0[1..];
    var r2 := r1[1..];
    var r3 := r2[1..];
    assert rules[0] == Rule('&', "&amp;") && r0[0] == Rule('<', "&lt;");
    assert r1[0] == Rule('>', "&gt;") && r2[0] == Rule('"', "&quot;");
    assert Image(c, rules) == if c == '&' then "&amp;" else Image(c, r0);
    assert Image(c, r0) == if c == '<' then "&lt;" else Image(c, r1);
    assert Image(c, r1) == if c == '>' then "&gt;" else Image(c, r2);
    assert Image(c, r2) == if c == '"' then "&quot;" else Image(c, r3);
    if rules == UTIL_RULES {
      assert r3 == [Rule('\'', "&apos;")];
      assert r3[1..] == [];
      assert Image(c, r3) == if c == '\'' then "&apos;" else [c];
    } else {
      assert r3 == [];
    }
  }

  lemma XmlRulesOrdered()
    ensures Ordered(EXPORTER_RULES) && Ordered(UTIL_RULES)
  {
    assert UTIL_RULES == [Rule('&', "&amp;"), Rule('<', "&lt;"), Rule('>', "&gt;"), Rule('"', "&quot;"),
        Rule('\'', "&apos;")];
  }

  lemma {:induction false} OnePassReadsBack(s: string, rules: seq<Rule>)
    requires IsXmlEscaper(rules)
    ensures DecodeReferences(OnePass(s, rules)) == Some(s)
  {
    if s != [] {
      OnePassReadsBack(s[1..], rules);
      OnePassHasNoMarkup(s[1..], rules);
      DecodeImage(s[0], rules, OnePass(s[1..], rules));
      assert s == [s[0]] + s[1..];
    }
  }

  lemma {:induction false} OnePassHasNoMarkup(s: string, rules: seq<Rule>)
    requires IsXmlEscaper(rules)
    ensures forall c <- OnePass(s, rules) :: c !in {'<', '>', '"'} && (rules == UTIL_RULES ==> c != '\'')
  {
    if s != [] {
      OnePassHasNoMarkup(s[1..], rules);
      XmlImage(s[0], rules);
    }
  }

  /** Escaping neither adds nor removes a character no document may hold. */
  lemma {:induction false} OnePassKeepsChars(s: string, rules: seq<Rule>)
    requires IsXmlEscaper(rules)
    ensures AllXmlChars(OnePass(s, rules)) <==> AllXmlChars(s)
  {
    if s != [] {
      hide Image, AllXmlChars;
      OnePassKeepsChars(s[1..], rules);
      var image, rest := Image(s[0], rules), OnePass(s[1..], rules);
      ImageKeepsChars(s[0], rules);
      AllXmlCharsConcat(image, rest);
      AllXmlCharsConcat([s[0]], s[1..]);
      assert s == [s[0]] + s[1..];
    }
  }

  lemma ImageKeepsChars(c: char, rules: seq<Rule>)
    requires IsXmlEscaper(rules)
    ensures AllXmlChars(Image(c, rules)) <==> AllXmlChars([c])
  {
    hide Image, IsXmlEscaper;
    XmlImage(c, rules);
    if Image(c, rules) != [c] {
      assert forall x <- [c] :: x == c;
    }
  }

  lemma AllXmlCharsConcat(a: string, b: string)
    ensures AllXmlChars(a + b) <==> AllXmlChars(a) && AllXmlChars(b)
  {
    if AllXmlChars(a + b) {
      forall c <- a ensures IsXmlChar(c) { assert c in a + b; }
      forall c <- b ensures IsXmlChar(c) { assert c in a + b; }
    }
  }

  /** Line ends pass through the escapers, so normalising them before or after escaping is the same. */
  lemma {:induction false} EscapeThenNormalise(s: string, rules: seq<Rule>)
    requires IsXmlEscaper(rules)
    ensures EolNormalised(OnePass(s, rules)) == OnePass(EolNormalised(s), rules)
    decreases |s|
  {
    hide Image;
    if s == [] {
    } else if "\r\n" <= s {
      EscapeThenNormalise(s[2..], rules);
      EscapePair(s, rules);
    } else {
      EscapeThenNormalise(s[1..], rules);
      XmlImage(s[0], rules);
      XmlImage('\n', rules);
      var image, rest := Image(s[0], rules), OnePass(s[1..], rules);
      if s[0] == '\r' {
        FirstOfOnePass(s[1..], rules);
        NormaliseLoneReturn(rest);
        assert (['\n'] + EolNormalised(s[1..]))[1..] == EolNormalised(s[1..]);
      } else {
        NormaliseConcat(image, rest);
        assert ([s[0]] + EolNormalised(s[1..]))[1..] == EolNormalised(s[1..]);
      }
    }
  }

  lemma EscapePair(s: string, rules: seq<Rule>)
    requires IsXmlEscaper(rules) && "\r\n" <= s
    requires EolNormalised(OnePass(s[2..], rules)) == OnePass(EolNormalised(s[2..]), rules)
    ensures EolNormalised(OnePass(s, rules)) == OnePass(EolNormalised(s), rules)
  {
    var rest := s[2..];
    assert s == "\r\n" + rest;
    PassLineEnds(rest, rules);
    PassLineEnds(EolNormalised(rest), rules);
    hide OnePass, EolNormalised;
    NormalisePair(rest);
    NormalisePair(OnePass(rest, rules));
  }

  lemma PassLineEnds(rest: string, rules: seq<Rule>)
    requires IsXmlEscaper(rules)
    ensures OnePass("\r\n" + rest, rules) == "\r\n" + OnePass(rest, rules)
    ensures OnePass(['\n'] + rest, rules) == ['\n'] + OnePass(rest, rules)
  {
    hide Image;
    XmlImage('\r', rules);
    XmlImage('\n', rules);
    assert ("\r\n" + rest)[1..] == ['\n'] + rest;
    assert (['\n'] + rest)[1..] == rest;
  }

  lemma NormalisePair(rest: string)
    ensures EolNormalised("\r\n" + rest) == ['\n'] + EolNormalised(rest)
  {
    assert ("\r\n" + rest)[2..] == rest;
  }

  lemma FirstOfOnePass(s: string, rules: seq<Rule>)
    requires IsXmlEscaper(rules) && (s == [] || s[0] != '\n')
    ensures OnePass(s, rules) == [] || OnePass(s, rules)[0] != '\n'
  {
    if s != [] { XmlImage(s[0], rules); }
  }

  lemma NormaliseLoneReturn(rest: string)
    requires rest == [] || rest[0] != '\n'
    ensures EolNormalised(['\r'] + rest) == ['\n'] + EolNormalised(rest)
  {
    var s := ['\r'] + rest;
    assert s[1..] == rest;
    assert rest != [] ==> s[1] == rest[0];
  }

  lemma {:induction false} NormaliseConcat(a: string, rest: string)
    requires '\r' !in a
    ensures EolNormalised(a + rest) == a + EolNormalised(rest)
  {
    if a == [] {
      assert a + rest == rest;
    } else {
      NormaliseConcat(a[1..], rest);
      var s := a + rest;
      assert s[0] == a[0] && s[1..] == a[1..] + rest && s[0] in a;
      assert EolNormalised(s) == [s[0]] + EolNormalised(s[1..]);
      assert a + EolNormalised(rest) == [a[0]] + (a[1..] + EolNormalised(rest));
    }
  }

  /** What becomes of a text on its way through either spreadsheet escaper and an XML reader: it comes back with its
      line ends normalised, exactly if the document may hold all its characters, and unchanged exactly if in addition
      it has no carriage return. No markup survives the escaper. */
  lemma XmlRoundTrip(s: string, rules: seq<Rule>)
    requires IsXmlEscaper(rules)
    ensures XmlDecode(ReplaceChain(s, rules)) == if AllXmlChars(s) then Some(EolNormalised(s)) else None
    ensures XmlDecode(ReplaceChain(s, rules)) == Some(EolNormalised(s)) <==> AllXmlChars(s)
    ensures XmlDecode(ReplaceChain(s, rules)) == Some(s) <==> AllXmlChars(s) && '\r' !in s
    ensures forall c <- ReplaceChain(s, rules) :: c !in {'<', '>', '"'} && (rules == UTIL_RULES ==> c != '\'')
  {
    XmlRulesOrdered();
    ChainIsOnePass(s, rules);
    OnePassKeepsChars(s, rules);
    EscapeThenNormalise(s, rules);
    OnePassReadsBack(EolNormalised(s), rules);
    OnePassHasNoMarkup(s, rules);
    EolNormalisedId(s);
  }

  /** Two texts that do not survive: a carriage return is lost, a control character makes the document unreadable. */
  lemma XmlLosses(rules: seq<Rule>)
    requires IsXmlEscaper(rules)
    ensures XmlDecode(ReplaceChain("a\r\nb", rules)) == Some("a\nb")
    ensures XmlDecode(ReplaceChain("\U{0000}", rules)) == None
  {
    XmlRoundTrip("a\r\nb", rules);
    XmlRoundTrip("\U{0000}", rules);
    hide XmlDecode, ReplaceChain, IsXmlEscaper;
    assert '\U{0000}' in "\U{0000}";
    NormalisedExample();
  }

  lemma NormalisedExample()
    ensures EolNormalised("a\r\nb") == "a\nb"
  {
    var tail := "\r\nb";
    NormaliseConcat("a", tail);
    assert "a" + tail == "a\r\nb";
    assert "\r\n" <= tail && tail[2..] == "b";
    EolNormalisedId("b");
    assert EolNormalised(tail) == ['\n'] + EolNormalised(tail[2..]);
  }

  // ----- The order of the rules -----

  /** The same rules as those of an escaper, in any order. */
  ghost predicate Reorders(rules: seq<Rule>, escaper: seq<Rule>) { multiset(rules) == multiset(escaper) }

  ghost predicate Injective(rules: seq<Rule>) {
    forall a: string, b: string :: ReplaceChain(a, rules) == ReplaceChain(b, rules) ==> a == b
  }

  lemma SameRules(rules: seq<Rule>, escaper: seq<Rule>)
    requires Reorders(rules, escaper)
    ensures forall r :: r in rules <==> r in escaper
  {
    forall r
      ensures r in rules <==> r in escaper
    {
      assert r in rules <==> r in multiset(rules);
      assert r in escaper <==> r in multiset(escaper);
    }
  }

  /** The rule of each character of an escaper: its text is an entity, and no two rules share a character. */
  lemma EscaperRule(escaper: seq<Rule>, r: Rule)
    requires IsXmlEscaper(escaper) && r in escaper
    ensures Image(r.ch, escaper) == r.text && (r.ch == '&' ==> r == Rule('&', "&amp;"))
    ensures forall c <- r.text :: c !in {'<', '>', '"', '\''}
    ensures r.ch in {'&', '<', '>', '"', '\''} && (r.ch != '&' ==> r.ch !in r.text)
  {
    XmlImage(r.ch, escaper);
  }

  lemma {:induction false} ImageOfRule(rules: seq<Rule>, r: Rule, escaper: seq<Rule>)
    requires IsXmlEscaper(escaper) && (forall x <- rules :: x in escaper) && r in rules
    ensures Image(r.ch, rules) == r.text
  {
    EscaperRule(escaper, r);
    EscaperRule(escaper, rules[0]);
    if rules[0].ch != r.ch { ImageOfRule(rules[1..], r, escaper); }
  }

  lemma {:induction false} ImageOfOther(rules: seq<Rule>, c: char)
    requires forall r <- rules :: r.ch != c
    ensures Image(c, rules) == [c]
  {
    if rules != [] { ImageOfOther(rules[1..], c); }
  }

  lemma SameImage(rules: seq<Rule>, escaper: seq<Rule>, c: char)
    requires IsXmlEscaper(escaper) && Reorders(rules, escaper)
    ensures Image(c, rules) == Image(c, escaper)
  {
    SameRules(rules, escaper);
    if r :| r in rules && r.ch == c {
      ImageOfRule(rules, r, escaper);
      EscaperRule(escaper, r);
    } else {
      ImageOfOther(rules, c);
      ImageOfOther(escaper, c);
    }
  }

  lemma {:induction false} SameOnePass(s: string, rules: seq<Rule>, escaper: seq<Rule>)
    requires IsXmlEscaper(escaper) && Reorders(rules, escaper)
    ensures OnePass(s, rules) == OnePass(s, escaper)
  {
    hide Image;
    if s != [] {
      SameImage(rules, escaper, s[0]);
      SameOnePass(s[1..], rules, escaper);
    }
  }

  lemma OneAmpersand()
    ensures multiset(EXPORTER_RULES)[Rule('&', "&amp;")] == 1 == multiset(UTIL_RULES)[Rule('&', "&amp;")]
  {
  }

  lemma NoSecondAmpersand(rules: seq<Rule>, escaper: seq<Rule>, j: nat)
    requires IsXmlEscaper(escaper) && Reorders(rules, escaper) && 0 < j < |rules| && rules[0].ch == '&'
    ensures rules[j].ch != '&'
  {
    SameRules(rules, escaper);
    assert rules[0] in escaper && rules[j] in escaper;
    EscaperRule(escaper, rules[0]);
    EscaperRule(escaper, rules[j]);
    if rules[j].ch == '&' { TwiceInSequence(rules, 0, j); }
    OneAmpersand();
  }

  lemma OrderedIfFirst(rules: seq<Rule>, escaper: seq<Rule>)
    requires IsXmlEscaper(escaper) && Reorders(rules, escaper) && rules != [] && rules[0].ch == '&'
    ensures Ordered(rules)
  {
    SameRules(rules, escaper);
    forall i, j | 0 <= i < j < |rules|
      ensures rules[j].ch !in rules[i].text
    {
      assert rules[i] in rules && rules[j] in rules;
      EscaperRule(escaper, rules[i]);
      EscaperRule(escaper, rules[j]);
      NoSecondAmpersand(rules, escaper, j);
    }
  }

  /** A first rule whose text lacks its own character makes two different texts alike, whatever rules follow. */
  lemma FirstRuleMerges(rules: seq<Rule>)
    requires rules != [] && rules[0].ch !in rules[0].text
    ensures [rules[0].ch] != rules[0].text && ReplaceChain([rules[0].ch], rules) == ReplaceChain(rules[0].text, rules)
  {
    var r := rules[0];
    ReplaceAllAbsent(r.text, r.ch, r.text);
    assert ReplaceAll([r.ch], r.ch, r.text) == r.text;
    assert r.ch in [r.ch];
  }

  /** Of all orders of an escaper's rules exactly those that start with the ampersand keep different texts apart. */
  lemma AmpersandMustComeFirst(rules: seq<Rule>, escaper: seq<Rule>)
    requires IsXmlEscaper(escaper) && Reorders(rules, escaper)
    ensures rules != [] && (Injective(rules) <==> rules[0].ch == '&')
  {
    assert escaper[0] in multiset(escaper);
    SameRules(rules, escaper);
    assert escaper[0] in rules;
    EscaperRule(escaper, rules[0]);
    if rules[0].ch != '&' {
      FirstRuleMerges(rules);
    } else {
      OrderedIfFirst(rules, escaper);
      forall a: string, b: string | ReplaceChain(a, rules) == ReplaceChain(b, rules)
        ensures a == b
      {
        ReadsBackInAnyOrder(a, rules, escaper);
        ReadsBackInAnyOrder(b, rules, escaper);
      }
    }
  }

  lemma ReadsBackInAnyOrder(s: string, rules: seq<Rule>, escaper: seq<Rule>)
    requires IsXmlEscaper(escaper) && Reorders(rules, escaper) && Ordered(rules)
    ensures DecodeReferences(ReplaceChain(s, rules)) == Some(s)
  {
    ChainIsOnePass(s, rules);
    SameOnePass(s, rules, escaper);
    OnePassReadsBack(s, escaper);
  }

  // ----- PDF literal strings -----

  const PDF_RULES: seq<Rule> := [Rule('\\', "\\\\"), Rule('(', "\\("), Rule(')', "\\)")]

  function PdfEscape(s: string): string { ReplaceChain(s, PDF_RULES) }

  /** A literal string read from just after its opening parenthesis (ISO 32000-1, section 7.3.4.2):
      the decoded text and what follows the closing parenthesis. */
  function ReadLiteral(s: string, depth: nat): (r: Option<(string, string)>)
    ensures r.Some? ==> |r.value.1| < |s|
    decreases |s|
  {
    if s == [] then None
    else if s[0] == ')' && depth == 0 then Some(("", s[1..]))
    else if s[0] == ')' then Push(')', ReadLiteral(s[1..], depth - 1))
    else if s[0] == '(' then Push('(', ReadLiteral(s[1..], depth + 1))
    else if s[0] == '\r' then
      Push('\n', ReadLiteral(if "\r\n" <= s then s[2..] else s[1..], depth))
    else if s[0] != '\\' then Push(s[0], ReadLiteral(s[1..], depth))
    else if |s| == 1 then None
    else if s[1] == '\n' then ReadLiteral(s[2..], depth)
    else if s[1] == '\r' then ReadLiteral(if "\r\n" <= s[1..] then s[3..] else s[2..], depth)
    else if IsOctal(s[1]) then
      var n := OctalLength(s[1..]);
      Push(((OctalValue(s[1..n+1])) % 256) as char, ReadLiteral(s[n+1..], depth))
    else Push(Escaped(s[1]), ReadLiteral(s[2..], depth))
  }

  function Push(c: char, rest: Option<(string, string)>): Option<(string, string)> {
    if rest.None? then None else Some(([c] + rest.value.0, rest.value.1))
  }

  function Escaped(c: char): char {
    match c
    case 'n' => '\n'
    case 'r' => '\r'
    case 't' => '\t'
    case 'b' => '\U{0008}'
    case 'f' => '\U{000C}'
    case _ => c
  }

  predicate IsOctal(c: char) { '0' <= c <= '7' }

  function OctalLength(s: string): (n: nat)
    requires s != [] && IsOctal(s[0])
    ensures 0 < n <= 3 && n <= |s| && forall c <- s[..n] :: IsOctal(c)
  {
    if |s| > 1 && IsOctal(s[1]) then if |s| > 2 && IsOctal(s[2]) then 3 else 2 else 1
  }

  function OctalValue(s: string): nat
    requires forall c <- s :: IsOctal(c)
  {
    if s == [] then 0
    else
      var last := s[|s|-1];
      assert IsOctal(last);
      8 * OctalValue(s[..|s|-1]) + (last as int - 48)
  }

  lemma PdfImage(c: char)
    ensures Image(c, PDF_RULES) == if c in {'\\', '(', ')'} then ['\\', c] else [c]
  {
    var r1 := PDF_RULES[1..];
    var r2 := r1[1..];
    assert r1[0] == Rule('(', "\\(") && r2[0] == Rule(')', "\\)") && r2[1..] == [];
    assert Image(c, PDF_RULES) == if c == '\\' then "\\\\" else Image(c, r1);
    assert Image(c, r1) == if c == '(' then "\\(" else Image(c, r2);
  }

  lemma PdfEscapeStep(s: string)
    ensures PdfEscape("") == ""
    ensures s != [] ==> PdfEscape(s) == (if s[0] in {'\\', '(', ')'} then ['\\', s[0]] else [s[0]]) + PdfEscape(s[1..])
  {
    ReplaceChainAbsent("", PDF_RULES);
    if s != [] {
      PdfImage(s[0]);
      ChainIsOnePass(s, PDF_RULES);
      ChainIsOnePass(s[1..], PDF_RULES);
    }
  }

  lemma ReadEnd(rest: string)
    ensures ReadLiteral([')'] + rest, 0) == Some(("", rest))
  {
    assert ([')'] + rest)[1..] == rest;
  }

  lemma ReadEscapedPair(c: char, tail: string)
    requires c in {'\\', '(', ')'}
    ensures ReadLiteral(['\\', c] + tail, 0) == Push(c, ReadLiteral(tail, 0))
  {
    assert (['\\', c] + tail)[2..] == tail;
  }

  lemma ReadPlain(c: char, tail: string)
    requires c !in {'\\', '(', ')', '\r'}
    ensures ReadLiteral([c] + tail, 0) == Push(c, ReadLiteral(tail, 0))
  {
    assert ([c] + tail)[1..] == tail;
  }

  lemma ReadCarriageReturn(tail: string)
    requires tail != []
    ensures ReadLiteral(['\r'] + tail, 0) == Push('\n', ReadLiteral(if tail[0] == '\n' then tail[1..] else tail, 0))
  {
    var text := ['\r'] + tail;
    assert text[1..] == tail && text[2..] == tail[1..];
    assert "\r\n" <= text <==> text[1] == '\n';
  }

  /** A reader finds the closing parenthesis the writer put there, and reads the text with line ends normalised. */
  lemma {:induction false} PdfLiteralReadsBack(s: string, rest: string)
    ensures ReadLiteral(PdfEscape(s) + ")" + rest, 0) == Some((EolNormalised(s), rest))
    decreases |s|
  {
    hide ReadLiteral, PdfEscape;
    PdfEscapeStep(s);
    if s == [] {
      assert PdfEscape(s) + ")" + rest == [')'] + rest;
      ReadEnd(rest);
    } else {
      var tail := PdfEscape(s[1..]) + ")" + rest;
      if s[0] in {'\\', '(', ')'} {
        assert PdfEscape(s) + ")" + rest == ['\\', s[0]] + tail;
        ReadEscapedPair(s[0], tail);
        PdfLiteralReadsBack(s[1..], rest);
      } else {
        assert PdfEscape(s) + ")" + rest == [s[0]] + tail;
        if s[0] != '\r' {
          ReadPlain(s[0], tail);
          PdfLiteralReadsBack(s[1..], rest);
        } else {
          ReadCarriageReturn(tail);
          if "\r\n" <= s {
            PdfEscapeStep(s[1..]);
            assert s[1..][1..] == s[2..];
            assert tail == ['\n'] + (PdfEscape(s[2..]) + ")" + rest);
            PdfLiteralReadsBack(s[2..], rest);
          } else {
            NoLineFeedAhead(s[1..], rest);
            PdfLiteralReadsBack(s[1..], rest);
          }
        }
      }
    }
  }

  lemma NoLineFeedAhead(s: string, rest: string)
    requires s == [] || s[0] != '\n'
    ensures (PdfEscape(s) + ")" + rest)[0] != '\n'
  {
    PdfEscapeStep(s);
  }

  /** The exact condition for a text to survive: it has no carriage return. */
  lemma PdfLiteralRoundTrip(s: string, rest: string)
    ensures ReadLiteral(PdfEscape(s) + ")" + rest, 0) == Some((s, rest)) <==> '\r' !in s
  {
    PdfLiteralReadsBack(s, rest);
    EolNormalisedId(s);
  }
}
