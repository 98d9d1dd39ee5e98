/** The two slug pipelines, and the search for a free slug. Lower-casing and Unicode
    decomposition are parameters; of them only their effect on slug characters is used. */
module Slugs {
  import opened Text

  predicate IsAlnum(c: char) { 'a' <= c <= 'z' || '0' <= c <= '9' }

  predicate NotAlnum(c: char) { !IsAlnum(c) }

  predicate IsDash(c: char) { c == '-' }

  // ----- The replaces of the pipelines -----

  function DropWhile(s: string, p: char -> bool): (r: string)
    ensures |r| <= |s|
    ensures s != [] && p(s[0]) ==> |r| < |s|
    ensures r != [] ==> !p(r[0])
  {
    if s != [] && p(s[0]) then DropWhile(s[1..], p) else s
  }

  function DropWhileEnd(s: string, p: char -> bool): (r: string)
    ensures r <= s
    ensures r != [] ==> !p(r[|r|-1])
  {
    if s != [] && p(s[|s|-1]) then DropWhileEnd(s[..|s|-1], p) else s
  }

  /** Every maximal run of characters satisfying `p` becomes one dash. */
  function CollapseRuns(s: string, p: char -> bool): string
    decreases |s|
  {
    if s == [] then []
    else if p(s[0]) then ['-'] + CollapseRuns(DropWhile(s, p), p)
    else [s[0]] + CollapseRuns(s[1..], p)
  }

  function Filter(s: string, p: char -> bool): (r: string)
    ensures forall i :: 0 <= i < |r| ==> p(r[i])
  {
    if s == [] then [] else (if p(s[0]) then [s[0]] else []) + Filter(s[1..], p)
  }

  function Trim(s: string): string { DropWhileEnd(DropWhile(s, IsSpace), IsSpace) }

  /** `replace(/^-|-$/g, '')`. */
  function RemoveEnds(s: string): string {
    var t := if s != [] && s[0] == '-' then s[1..] else s;
    if t != [] && t[|t|-1] == '-' then t[..|t|-1] else t
  }

  /** `replace(/^-+|-+$/g, '')`. */
  function TrimDashes(s: string): string { DropWhileEnd(DropWhile(s, IsDash), IsDash) }

  predicate Kept(c: char) { IsAlnum(c) || IsSpace(c) || c == '-' }

  predicate NotMark(c: char) { !('\U{0300}' <= c <= '\U{036F}') }

  /** `SlugUtil.create`. */
  function Create(value: string, lower: string -> string): string {
    RemoveEnds(CollapseRuns(CollapseRuns(Filter(Trim(lower(value)), Kept), IsSpace), IsDash))
  }

  /** `slugify` of the knowledge base. */
  function Slugify(value: string, lower: string -> string, nfkd: string -> string): string {
    CollapseRuns(TrimDashes(CollapseRuns(Filter(nfkd(lower(value)), NotMark), NotAlnum)), IsDash)
  }

  // ----- Runs of letters and digits -----

  /** The letters and digits of a text, each run of them joined to the next by one dash. */
  function Dashed(s: string): string { Join(Runs(s, IsAlnum), "-") }

  lemma RunsSkip(c: char, s: string)
    requires !IsAlnum(c)
    ensures Runs([c] + s, IsAlnum) == Runs(s, IsAlnum)
  {
    assert ([c] + s)[1..] == s;
  }

  lemma {:induction false} RunLengthOf(a: string, s: string)
    requires forall i :: 0 <= i < |a| ==> IsAlnum(a[i])
    requires s == [] || !IsAlnum(s[0])
    ensures RunLength(a + s, IsAlnum) == |a|
  {
    if a == [] {
      assert a + s == s;
    } else {
      assert (a + s)[1..] == a[1..] + s;
      RunLengthOf(a[1..], s);
    }
  }

  lemma RunsTake(a: string, s: string)
    requires a != [] && forall i :: 0 <= i < |a| ==> IsAlnum(a[i])
    requires s == [] || !IsAlnum(s[0])
    ensures Runs(a + s, IsAlnum) == [a] + Runs(s, IsAlnum)
  {
    RunLengthOf(a, s);
    assert (a + s)[..|a|] == a && (a + s)[|a|..] == s;
  }

  /** A text that starts with a letter or digit, split behind its first run. */
  lemma FirstRun(s: string) returns (a: string, rest: string)
    requires s != [] && IsAlnum(s[0])
    ensures s == a + rest && a != [] && |rest| < |s|
    ensures forall i :: 0 <= i < |a| ==> IsAlnum(a[i])
    ensures rest == [] || !IsAlnum(rest[0])
  {
    var n := RunLength(s, IsAlnum);
    a, rest := s[..n], s[n..];
    forall i | 0 <= i < |a| ensures IsAlnum(a[i]) { assert a[i] in s[..n]; }
  }

  ghost predicate SeparatorsOnly(p: char -> bool) { forall c :: p(c) ==> !IsAlnum(c) }

  lemma {:induction false} RunsDropWhile(s: string, p: char -> bool)
    requires SeparatorsOnly(p)
    ensures Runs(DropWhile(s, p), IsAlnum) == Runs(s, IsAlnum)
  {
    if s != [] && p(s[0]) {
      RunsDropWhile(s[1..], p);
      RunsSkip(s[0], s[1..]);
      assert s == [s[0]] + s[1..];
    }
  }

  lemma {:induction false} RunsDropLast(s: string, c: char)
    requires !IsAlnum(c)
    ensures Runs(s + [c], IsAlnum) == Runs(s, IsAlnum)
    decreases |s|
  {
    if s == [] {
      assert s + [c] == [c] + [];
      RunsSkip(c, []);
    } else if !IsAlnum(s[0]) {
      RunsDropLast(s[1..], c);
      RunsSkip(s[0], s[1..]);
      RunsSkip(s[0], s[1..] + [c]);
      assert s == [s[0]] + s[1..] && s + [c] == [s[0]] + (s[1..] + [c]);
    } else {
      var a, rest := FirstRun(s);
      RunsDropLast(rest, c);
      RunsTake(a, rest);
      RunsTake(a, rest + [c]);
      assert s + [c] == a + (rest + [c]);
    }
  }

  lemma {:induction false} RunsDropWhileEnd(s: string, p: char -> bool)
    requires SeparatorsOnly(p)
    ensures Runs(DropWhileEnd(s, p), IsAlnum) == Runs(s, IsAlnum)
  {
    if s != [] && p(s[|s|-1]) {
      RunsDropWhileEnd(s[..|s|-1], p);
      RunsDropLast(s[..|s|-1], s[|s|-1]);
      assert s == s[..|s|-1] + [s[|s|-1]];
    }
  }

  lemma {:induction false} CollapseKeeps(a: string, s: string, p: char -> bool)
    requires SeparatorsOnly(p) && forall i :: 0 <= i < |a| ==> IsAlnum(a[i])
    ensures CollapseRuns(a + s, p) == a + CollapseRuns(s, p)
  {
    if a == [] {
      assert a + s == s;
    } else {
      assert (a + s)[1..] == a[1..] + s;
      CollapseKeeps(a[1..], s, p);
    }
  }

  lemma CollapseStart(s: string, p: char -> bool)
    requires SeparatorsOnly(p)
    ensures s == [] || !IsAlnum(s[0]) ==> CollapseRuns(s, p) == [] || !IsAlnum(CollapseRuns(s, p)[0])
  {
  }

  /** Collapsing separators leaves the runs of letters and digits as they are. */
  lemma {:induction false} RunsCollapse(s: string, p: char -> bool)
    requires SeparatorsOnly(p)
    ensures Runs(CollapseRuns(s, p), IsAlnum) == Runs(s, IsAlnum)
    decreases |s|
  {
    if s == [] {
    } else if IsAlnum(s[0]) {
      var a, rest := FirstRun(s);
      RunsCollapse(rest, p);
      CollapseKeeps(a, rest, p);
      CollapseStart(rest, p);
      RunsTake(a, rest);
      RunsTake(a, CollapseRuns(rest, p));
    } else if p(s[0]) {
      var rest := DropWhile(s, p);
      RunsCollapse(rest, p);
      RunsDropWhile(s, p);
      RunsSkip('-', CollapseRuns(rest, p));
    } else {
      RunsCollapse(s[1..], p);
      RunsSkip(s[0], s[1..]);
      RunsSkip(s[0], CollapseRuns(s[1..], p));
      assert s == [s[0]] + s[1..];
    }
  }

  lemma {:induction false} RunsFilterTrim(s: string)
    ensures Runs(Filter(Trim(s), Kept), IsAlnum) == Runs(Filter(s, Kept), IsAlnum)
  {
    FilterDropWhile(s);
    FilterDropWhileEnd(DropWhile(s, IsSpace));
  }

  lemma {:induction false} FilterDropWhile(s: string)
    ensures Runs(Filter(DropWhile(s, IsSpace), Kept), IsAlnum) == Runs(Filter(s, Kept), IsAlnum)
  {
    if s != [] && IsSpace(s[0]) {
      FilterDropWhile(s[1..]);
      RunsSkip(s[0], Filter(s[1..], Kept));
    }
  }

  lemma {:induction false} FilterConcat(a: string, b: string, p: char -> bool)
    ensures Filter(a + b, p) == Filter(a, p) + Filter(b, p)
  {
    if a == [] {
      assert a + b == b;
    } else {
      assert (a + b)[1..] == a[1..] + b;
      FilterConcat(a[1..], b, p);
    }
  }

  lemma {:induction false} FilterDropWhileEnd(s: string)
    ensures Runs(Filter(DropWhileEnd(s, IsSpace), Kept), IsAlnum) == Runs(Filter(s, Kept), IsAlnum)
  {
    if s != [] && IsSpace(s[|s|-1]) {
      var front, last := s[..|s|-1], s[|s|-1];
      FilterDropWhileEnd(front);
      assert s == front + [last];
      FilterConcat(front, [last], Kept);
      assert Filter([last], Kept) == [last];
      RunsDropLast(Filter(front, Kept), last);
    }
  }

  // ----- Normal form -----

  /** Letters, digits and single dashes. */
  ghost predicate SingleDashes(s: string) {
    && (forall i :: 0 <= i < |s| ==> IsAlnum(s[i]) || s[i] == '-')
    && forall i :: 0 < i < |s| ==> !(s[i - 1] == '-' && s[i] == '-')
  }

  /** `[a-z0-9]+(-[a-z0-9]+)*`. */
  ghost predicate IsSlug(s: string) {
    s != [] && SingleDashes(s) && s[0] != '-' && s[|s|-1] != '-'
  }

  lemma DashedStep(a: string, more: string)
    requires a != [] && forall i :: 0 <= i < |a| ==> IsAlnum(a[i])
    requires more == [] || IsAlnum(more[0])
    ensures Dashed(a) == a
    ensures Dashed(a + (['-'] + more)) == if more == [] then a else a + "-" + Dashed(more)
  {
    RunsTake(a, []);
    assert a + [] == a;
    RunsTake(a, ['-'] + more);
    RunsSkip('-', more);
    if more != [] { RunsNotEmpty(more); }
  }

  /** Text with single dashes is its runs joined by dashes, but for a dash at either end. */
  lemma {:induction false} SingleDashesAreDashed(s: string)
    requires SingleDashes(s) && (s == [] || IsAlnum(s[0]))
    ensures s == Dashed(s) + if s != [] && s[|s|-1] == '-' then "-" else ""
    decreases |s|
  {
    hide Dashed;
    if s == [] {
      NothingDashed();
    } else {
      var a, rest := FirstRun(s);
      if rest == [] {
        assert s == a;
        DashedStep(a, []);
      } else {
        var more := rest[1..];
        assert rest[0] == s[|a|] && rest == ['-'] + more;
        assert forall i :: 0 <= i < |more| ==> more[i] == s[|a| + 1 + i];
        assert more == [] || IsAlnum(more[0]) by { if more != [] { assert s[|a| + 1] == more[0]; } }
        DashedStep(a, more);
        SingleDashesAreDashed(more);
        if more != [] { assert s[|s|-1] == more[|more|-1]; }
      }
    }
  }

  lemma NothingDashed()
    ensures Dashed("") == ""
  {
  }

  lemma RunsNotEmpty(s: string)
    requires s != [] && IsAlnum(s[0])
    ensures Runs(s, IsAlnum) != []
  {
    var a, rest := FirstRun(s);
    RunsTake(a, rest);
  }

  ghost predicate AllRuns(runs: seq<string>) {
    forall i :: 0 <= i < |runs| ==> runs[i] != [] && forall j :: 0 <= j < |runs[i]| ==> IsAlnum(runs[i][j])
  }

  /** The runs joined by single dashes are empty or a slug. */
  lemma {:induction false} JoinedRunsAreSlug(runs: seq<string>)
    requires runs != [] && AllRuns(runs)
    ensures IsSlug(Join(runs, "-"))
    decreases |runs|
  {
    var a := runs[0];
    if |runs| > 1 {
      JoinedRunsAreSlug(runs[1..]);
      var t := Join(runs[1..], "-");
      var s := a + "-" + t;
      assert forall i :: |a| < i < |s| ==> s[i] == t[i - |a| - 1];
    }
  }

  lemma DashedIsSlug(s: string)
    ensures Dashed(s) == "" || IsSlug(Dashed(s))
  {
    var runs := Runs(s, IsAlnum);
    forall i | 0 <= i < |runs|
      ensures runs[i] != [] && forall j :: 0 <= j < |runs[i]| ==> IsAlnum(runs[i][j])
    {
      assert runs[i] in runs;
      assert forall j :: 0 <= j < |runs[i]| ==> runs[i][j] in runs[i];
    }
    if runs != [] { JoinedRunsAreSlug(runs); }
  }

  lemma SlugIsDashed(s: string)
    requires s == "" || IsSlug(s)
    ensures Dashed(s) == s
  {
    SingleDashesAreDashed(s);
  }

  lemma {:induction false} CollapseIsSingle(s: string, p: char -> bool)
    requires forall i :: 0 <= i < |s| ==> p(s[i]) || (IsAlnum(s[i]) && !p(s[i]))
    requires SeparatorsOnly(p)
    ensures SingleDashes(CollapseRuns(s, p))
    ensures s != [] && !p(s[0]) ==> CollapseRuns(s, p) != [] && CollapseRuns(s, p)[0] != '-'
    decreases |s|
  {
    if s != [] {
      if p(s[0]) {
        var rest := DropWhile(s, p);
        DropWhileSuffix(s, p);
        CollapseIsSingle(rest, p);
      } else {
        CollapseIsSingle(s[1..], p);
      }
    }
  }

  lemma {:induction false} DropWhileSuffix(s: string, p: char -> bool)
    ensures var r := DropWhile(s, p); r == s[|s| - |r|..]
  {
    if s != [] && p(s[0]) { DropWhileSuffix(s[1..], p); }
  }

  /** With single dashes, dropping one dash at each end leaves the runs joined by dashes. */
  lemma RemoveEndsIsDashed(s: string)
    requires SingleDashes(s)
    ensures RemoveEnds(s) == Dashed(s)
  {
    hide Runs, Join;
    var t := if s != [] && s[0] == '-' then s[1..] else s;
    if t != s {
      RunsSkip('-', t);
      assert s == ['-'] + t;
      assert forall i :: 0 <= i < |t| ==> t[i] == s[i + 1];
    }
    SingleDashesAreDashed(t);
  }

  /** Dropping all dashes at the ends of such a text is dropping one. */
  lemma TrimDashesIsRemoveEnds(s: string)
    requires SingleDashes(s)
    ensures TrimDashes(s) == RemoveEnds(s)
  {
    var t := if s != [] && s[0] == '-' then s[1..] else s;
    assert DropWhile(s, IsDash) == t;
    if t != [] && t[|t|-1] == '-' {
      var u := t[..|t|-1];
      if u != [] { assert u[|u|-1] == t[|t|-2]; }
      assert DropWhileEnd(u, IsDash) == u;
    }
  }

  lemma {:induction false} CollapseOfSingle(s: string)
    requires SingleDashes(s)
    ensures CollapseRuns(s, IsDash) == s
  {
    if s != [] {
      assert forall i :: 0 <= i < |s[1..]| ==> s[1..][i] == s[i + 1];
      CollapseOfSingle(s[1..]);
      if s[0] == '-' {
        assert s[1..] == [] || s[1..][0] == s[1] != '-';
        assert DropWhile(s, IsDash) == s[1..];
      }
      assert s == [s[0]] + s[1..];
    }
  }

  lemma {:induction false} CollapseAlphabet(s: string)
    requires forall i :: 0 <= i < |s| ==> Kept(s[i])
    ensures forall i :: 0 <= i < |CollapseRuns(s, IsSpace)| ==>
            IsAlnum(CollapseRuns(s, IsSpace)[i]) || CollapseRuns(s, IsSpace)[i] == '-'
    decreases |s|
  {
    if s != [] {
      if IsSpace(s[0]) {
        DropWhileSuffix(s, IsSpace);
        CollapseAlphabet(DropWhile(s, IsSpace));
      } else {
        CollapseAlphabet(s[1..]);
      }
    }
  }

  /** The seven stages of `SlugUtil.create` keep the runs of letters and digits that are left after
      lower-casing and filtering, and join them by single dashes. */
  lemma CreateIsDashed(value: string, lower: string -> string)
    ensures Create(value, lower) == Dashed(Filter(lower(value), Kept))
  {
    var filtered := Filter(Trim(lower(value)), Kept);
    var spaced := CollapseRuns(filtered, IsSpace);
    RunsFilterTrim(lower(value));
    RunsCollapse(filtered, IsSpace);
    CollapseAlphabet(filtered);
    RunsCollapse(spaced, IsDash);
    CollapseIsSingle(spaced, IsDash);
    RemoveEndsIsDashed(CollapseRuns(spaced, IsDash));
  }

  /** `slugify` joins the runs of letters and digits of the decomposed text. */
  lemma SlugifyIsDashed(value: string, lower: string -> string, nfkd: string -> string)
    ensures Slugify(value, lower, nfkd) == Dashed(Filter(nfkd(lower(value)), NotMark))
  {
    var stripped := Filter(nfkd(lower(value)), NotMark);
    var dashed := CollapseRuns(stripped, NotAlnum);
    RunsCollapse(stripped, NotAlnum);
    CollapseIsSingle(stripped, NotAlnum);
    TrimDashesIsRemoveEnds(dashed);
    RemoveEndsIsDashed(dashed);
    DashedIsSlug(dashed);
    CollapseOfSingle(TrimDashes(dashed));
  }

  /** Leaves slug characters alone, as lower-casing and decomposition do. */
  ghost predicate FixesSlugs(f: string -> string) { forall s :: SingleDashes(s) ==> f(s) == s }

  lemma {:induction false} FilterAll(s: string, p: char -> bool)
    requires forall i :: 0 <= i < |s| ==> p(s[i])
    ensures Filter(s, p) == s
  {
    if s != [] {
      FilterAll(s[1..], p);
      assert s == [s[0]] + s[1..];
    }
  }

  /** Both pipelines give the empty string or a slug in normal form, leave slugs as they are, and so
      change nothing when applied twice. */
  lemma SlugNormalForm(value: string, lower: string -> string, nfkd: string -> string)
    requires FixesSlugs(lower) && FixesSlugs(nfkd)
    ensures var s := Create(value, lower); (s == "" || IsSlug(s)) && Create(s, lower) == s
    ensures var s := Slugify(value, lower, nfkd); (s == "" || IsSlug(s)) && Slugify(s, lower, nfkd) == s
  {
    CreateIsDashed(value, lower);
    SlugifyIsDashed(value, lower, nfkd);
    DashedIsSlug(Filter(lower(value), Kept));
    DashedIsSlug(Filter(nfkd(lower(value)), NotMark));
    SlugsAreFixed(Create(value, lower), lower, nfkd);
    SlugsAreFixed(Slugify(value, lower, nfkd), lower, nfkd);
  }

  lemma SlugsAreFixed(s: string, lower: string -> string, nfkd: string -> string)
    requires FixesSlugs(lower) && FixesSlugs(nfkd) && (s == "" || IsSlug(s))
    ensures Create(s, lower) == s && Slugify(s, lower, nfkd) == s
  {
    assert SingleDashes(s);
    assert lower(s) == s && nfkd(s) == s;
    CreateIsDashed(s, lower);
    SlugifyIsDashed(s, lower, nfkd);
    FilterAll(s, Kept);
    FilterAll(s, NotMark);
    SlugIsDashed(s);
  }

  /** On text of letters, digits, spaces and dashes that needs no decomposition the two pipelines agree. */
  lemma PipelinesAgree(value: string, lower: string -> string, nfkd: string -> string)
    requires nfkd(lower(value)) == lower(value)
    requires forall i :: 0 <= i < |lower(value)| ==> Kept(lower(value)[i])
    ensures Create(value, lower) == Slugify(value, lower, nfkd)
  {
    hide Create, Slugify, Dashed, Filter;
    CreateIsDashed(value, lower);
    SlugifyIsDashed(value, lower, nfkd);
    FilterAll(lower(value), Kept);
    FilterAll(lower(value), NotMark);
  }

  function Same(s: string): string { s }

  /** Elsewhere they differ: an underscore is dropped by one and becomes a dash in the other. */
  lemma PipelinesDiffer(a: char, b: char)
    requires IsAlnum(a) && IsAlnum(b)
    ensures Create([a, '_', b], Same) == [a, b]
    ensures Slugify([a, '_', b], Same, Same) == [a, '-', b]
  {
    var text := [a, '_', b];
    CreateIsDashed(text, Same);
    SlugifyIsDashed(text, Same, Same);
    hide Create, Slugify, Dashed;
    KeptOf(a, b);
    FilterAll(text, NotMark);
    SlugIsDashed([a, b]);
    DashedPair(a, b);
  }

  lemma DashedPair(a: char, b: char)
    requires IsAlnum(a) && IsAlnum(b)
    ensures Dashed([a, '_', b]) == [a, '-', b]
  {
    assert [a, '_', b] == [a] + (['_'] + [b]) && [b] + [] == [b];
    RunsTake([a], ['_'] + [b]);
    RunsSkip('_', [b]);
    RunsTake([b], []);
    assert Runs([b], IsAlnum) == [[b]];
    assert Runs([a, '_', b], IsAlnum) == [[a], [b]];
    JoinPair([a], [b]);
    assert [a] + "-" + [b] == [a, '-', b];
  }

  lemma JoinPair(a: string, b: string)
    ensures Join([a, b], "-") == a + "-" + b
  {
    assert [a, b][1..] == [b];
  }

  lemma KeptOf(a: char, b: char)
    requires IsAlnum(a) && IsAlnum(b)
    ensures Filter([a, '_', b], Kept) == [a, b]
  {
    var t1 := [a, '_', b][1..];
    var t2 := t1[1..];
    assert t1 == ['_', b] && t2 == [b] && t2[1..] == [];
    assert Filter(t2, Kept) == [b];
    assert Filter(t1, Kept) == [b];
  }

  // ----- What a slug keeps of a name -----

  /** A letter or digit, and whether it belongs to the same run as the one before it. */
  datatype Letter = Letter(ch: char, joined: bool)

  /** The letters and digits of a text, in order; a character that separates ends a run, any other is passed over. */
  function Letters(s: string, joined: bool, separates: char -> bool): seq<Letter> {
    if s == "" then []
    else if 'a' <= s[0] <= 'z' || '0' <= s[0] <= '9' then
      [Letter(s[0], joined)] + Letters(s[1..], true, separates)
    else Letters(s[1..], joined && !separates(s[0]), separates)
  }

  function LettersOf(runs: seq<string>): seq<Letter> {
    if runs == [] then [] else Letters(runs[0], false, IsDash) + LettersOf(runs[1..])
  }

  lemma {:induction false} LettersConcat(a: string, b: string, separates: char -> bool)
    requires forall i :: 0 <= i < |a| ==> IsAlnum(a[i])
    ensures forall joined :: Letters(a + b, joined, separates)
                             == Letters(a, joined, separates) + Letters(b, joined || a != "", separates)
  {
    if a == "" {
      assert a + b == b;
    } else {
      assert (a + b)[1..] == a[1..] + b;
      LettersConcat(a[1..], b, separates);
    }
  }

  /** The run of a word does not depend on what separates. */
  lemma {:induction false} WordLetters(a: string, joined: bool, p: char -> bool, q: char -> bool)
    requires forall i :: 0 <= i < |a| ==> IsAlnum(a[i])
    ensures Letters(a, joined, p) == Letters(a, joined, q)
  {
    if a != "" { WordLetters(a[1..], true, p, q); }
  }

  /** Filtering keeps the letters and digits, and what separates them, as long as it drops neither. */
  lemma {:induction false} FilterLetters(s: string, joined: bool, keep: char -> bool, separates: char -> bool)
    requires forall c :: IsAlnum(c) || separates(c) ==> keep(c)
    ensures Letters(Filter(s, keep), joined, separates) == Letters(s, joined, separates)
  {
    if s != "" {
      var rest := Filter(s[1..], keep);
      FilterLetters(s[1..], true, keep, separates);
      FilterLetters(s[1..], joined, keep, separates);
      FilterLetters(s[1..], joined && !separates(s[0]), keep, separates);
      if keep(s[0]) {
        assert ([s[0]] + rest)[1..] == rest;
      } else {
        assert [] + rest == rest && !IsAlnum(s[0]) && !separates(s[0]);
      }
    }
  }

  /** The runs of a text in which everything else separates. */
  lemma {:induction false} RunsLetters(s: string, separates: char -> bool)
    requires forall i :: 0 <= i < |s| ==> IsAlnum(s[i]) || separates(s[i])
    ensures LettersOf(Runs(s, IsAlnum)) == Letters(s, false, separates)
    decreases |s|
  {
    if s != "" {
      if !IsAlnum(s[0]) {
        RunsLetters(s[1..], separates);
      } else {
        var a, rest := FirstRun(s);
        RunsTake(a, rest);
        RunsLetters(rest, separates);
        LettersConcat(a, rest, separates);
        WordLetters(a, false, IsDash, separates);
        RestStarts(rest, separates);
        assert Runs(s, IsAlnum)[1..] == Runs(rest, IsAlnum);
      }
    }
  }

  lemma RestStarts(rest: string, separates: char -> bool)
    requires rest == [] || (!IsAlnum(rest[0]) && separates(rest[0]))
    ensures Letters(rest, true, separates) == Letters(rest, false, separates)
  {
  }

  lemma {:induction false} JoinLetters(runs: seq<string>)
    requires AllRuns(runs)
    ensures Letters(Join(runs, "-"), false, IsDash) == LettersOf(runs)
    decreases |runs|
  {
    if |runs| == 1 {
      assert LettersOf(runs[1..]) == [];
    } else if runs != [] {
      JoinLetters(runs[1..]);
      var tail := Join(runs[1..], "-");
      LettersConcat(runs[0], "-" + tail, IsDash);
      assert runs[0] + "-" + tail == runs[0] + ("-" + tail);
      assert ("-" + tail)[1..] == tail;
    }
  }

  lemma DashedLetters(s: string, separates: char -> bool)
    requires forall i :: 0 <= i < |s| ==> IsAlnum(s[i]) || separates(s[i])
    ensures Letters(Dashed(s), false, IsDash) == Letters(s, false, separates)
  {
    var runs := Runs(s, IsAlnum);
    forall i | 0 <= i < |runs|
      ensures runs[i] != [] && forall j :: 0 <= j < |runs[i]| ==> IsAlnum(runs[i][j])
    {
      assert runs[i] in runs;
      assert forall j :: 0 <= j < |runs[i]| ==> runs[i][j] in runs[i];
    }
    RunsLetters(s, separates);
    JoinLetters(runs);
  }

  /** Spaces and dashes separate in `SlugUtil.create`. */
  predicate SpaceOrDash(c: char) { IsSpace(c) || c == '-' }

  /** Everything but combining marks separates in `slugify`. */
  predicate NoCombiningMark(c: char) { c < '\U{0300}' || '\U{036F}' < c }

  /** A slug has the letters and digits of the name, in lower case, in order, and a dash between two of them exactly if
      the name has something between them that separates. Other characters are passed over by one pipeline; by the other
      only combining marks are. */
  lemma SlugsKeepLetters(value: string, lower: string -> string, nfkd: string -> string)
    ensures Letters(Create(value, lower), false, IsDash) == Letters(lower(value), false, SpaceOrDash)
    ensures Letters(Slugify(value, lower, nfkd), false, IsDash) == Letters(nfkd(lower(value)), false, NoCombiningMark)
  {
    hide Create, Slugify, Dashed, IsSpace;
    CreateIsDashed(value, lower);
    SlugifyIsDashed(value, lower, nfkd);
    DashedLetters(Filter(lower(value), Kept), SpaceOrDash);
    DashedLetters(Filter(nfkd(lower(value)), NotMark), NoCombiningMark);
    FilterLetters(lower(value), false, Kept, SpaceOrDash);
    FilterLetters(nfkd(lower(value)), false, NotMark, NoCombiningMark);
  }

  // ----- Free slugs -----

  /** The slugs tried in turn: the base, then base-1, base-2, and so on. */
  function Candidate(base: string, k: nat): string {
    if k == 0 then base else base + "-" + Decimal(k)
  }

  lemma CandidatesDiffer(base: string, j: nat, k: nat)
    requires Candidate(base, j) == Candidate(base, k)
    ensures j == k
  {
    if j > 0 && k > 0 {
      assert Candidate(base, j)[|base| + 1..] == Decimal(j);
      assert Candidate(base, k)[|base| + 1..] == Decimal(k);
      DecimalInjective(j, k);
    }
  }

  /** The first n candidates. */
  ghost function Tried(base: string, n: nat): set<string> {
    set k: nat | k < n :: Candidate(base, k)
  }

  lemma {:induction false} TriedSize(base: string, n: nat)
    ensures |Tried(base, n)| == n
  {
    if n == 0 {
      assert Tried(base, 0) == {};
    } else {
      TriedSize(base, n - 1);
      assert Tried(base, n) == Tried(base, n - 1) + {Candidate(base, n - 1)};
      if Candidate(base, n - 1) in Tried(base, n - 1) {
        var k: nat :| k < n - 1 && Candidate(base, k) == Candidate(base, n - 1);
        CandidatesDiffer(base, k, n - 1);
      }
    }
  }

  lemma {:induction false} SubsetSize<T>(a: set<T>, b: set<T>)
    requires a <= b
    ensures |a| <= |b|
  {
    if a != {} {
      var x :| x in a;
      SubsetSize(a - {x}, b - {x});
    }
  }

  /** Pigeonhole: not all of more candidates than there are taken slugs can be taken. */
  lemma TriedBound(base: string, n: nat, taken: set<string>)
    requires forall k :: 0 <= k < n ==> Candidate(base, k) in taken
    ensures n <= |taken|
  {
    TriedSize(base, n);
    SubsetSize(Tried(base, n), taken);
  }

  /** The loop of `ensureUniqueArticleSlug` and `ensureUniqueOrganizationSlug`: the first free candidate,
      found after at most |taken| + 1 lookups. */
  method FirstFree(base: string, taken: set<string>) returns (slug: string, ghost k: nat)
    ensures slug == (if k == 0 then base else base + "-" + Decimal(k)) && slug !in taken && k <= |taken|
    ensures slug == Candidate(base, k) && forall j :: 0 <= j < k ==> Candidate(base, j) in taken
  {
    var candidate := base;
    var index := 1;
    while candidate in taken
      invariant index >= 1 && candidate == Candidate(base, index - 1)
      invariant forall j :: 0 <= j < index - 1 ==> Candidate(base, j) in taken
      decreases |taken| + 1 - index
    {
      TriedBound(base, index, taken);
      candidate := base + "-" + Decimal(index);
      index := index + 1;
    }
    slug, k := candidate, index - 1;
    TriedBound(base, k, taken);
  }

  /** The slug the loop ends on, as a value. */
  function FreeSlug(base: string, taken: set<string>, k: nat): string
    requires forall j :: 0 <= j < k ==> Candidate(base, j) in taken
    ensures FreeSlug(base, taken, k) !in taken
    decreases |taken| - k
  {
    TriedBound(base, k, taken);
    if Candidate(base, k) !in taken then Candidate(base, k)
    else
      TriedBound(base, k + 1, taken);
      FreeSlug(base, taken, k + 1)
  }

  lemma {:induction false} FirstFreeIsFreeSlug(base: string, taken: set<string>, from: nat, k: nat)
    requires from <= k && Candidate(base, k) !in taken
    requires forall j :: 0 <= j < k ==> Candidate(base, j) in taken
    ensures FreeSlug(base, taken, from) == Candidate(base, k)
    decreases k - from
  {
    if from < k { FirstFreeIsFreeSlug(base, taken, from + 1, k); }
  }

  /** The free slug is the first candidate that is not taken. */
  lemma {:induction false} FreeSlugIsFirst(base: string, taken: set<string>, from: nat) returns (k: nat)
    requires forall j :: 0 <= j < from ==> Candidate(base, j) in taken
    ensures FreeSlug(base, taken, from) == (if k == 0 then base else base + "-" + Decimal(k))
    ensures FreeSlug(base, taken, from) == Candidate(base, k) && Candidate(base, k) !in taken
    ensures forall j :: 0 <= j < k ==> Candidate(base, j) in taken
    decreases |taken| - from
  {
    TriedBound(base, from, taken);
    if Candidate(base, from) !in taken {
      k := from;
    } else {
      TriedBound(base, from + 1, taken);
      k := FreeSlugIsFirst(base, taken, from + 1);
    }
  }

  /** `ensureUniqueArticleSlug`: an empty base falls back to "article". */
  function ArticleBase(base: string): string { if base != "" then base else "article" }

  method UniqueArticleSlug(base: string, taken: set<string>) returns (slug: string)
    ensures slug == FreeSlug(ArticleBase(base), taken, 0) && slug !in taken
  {
    ghost var k;
    slug, k := FirstFree(ArticleBase(base), taken);
    FirstFreeIsFreeSlug(ArticleBase(base), taken, 0, k);
  }

  /** A numbered candidate of a slug is a slug. */
  lemma CandidateIsSlug(base: string, k: nat)
    requires IsSlug(base)
    ensures IsSlug(Candidate(base, k))
  {
    if k > 0 {
      var d := Decimal(k);
      var s := base + "-" + d;
      forall i | 0 <= i < |s|
        ensures IsAlnum(s[i]) || s[i] == '-'
        ensures i > |base| ==> s[i] != '-'
      {
        if i > |base| { assert s[i] == d[i - |base| - 1] && d[i - |base| - 1] in d; }
      }
    }
  }

  /** `ensureUniqueOrganizationSlug` has no fallback: its result is a slug in normal form exactly when
      the pipeline left something of the name. */
  method UniqueOrganizationSlug(name: string, lower: string -> string, taken: set<string>) returns (slug: string)
    requires FixesSlugs(lower)
    ensures slug !in taken && slug == FreeSlug(Create(name, lower), taken, 0)
    ensures IsSlug(slug) <==> Create(name, lower) != ""
  {
    var base := Create(name, lower);
    ghost var k;
    slug, k := FirstFree(base, taken);
    FirstFreeIsFreeSlug(base, taken, 0, k);
    SlugNormalForm(name, lower, lower);
    if base != "" {
      CandidateIsSlug(base, k);
    } else if k > 0 {
      assert slug[0] == '-';
    }
  }
}
