/** Options, string joining and decimal numerals shared by the other modules. */
module Text {
  datatype Option<+T> = None | Some(value: T)

  function Tabulate<T>(n: nat, f: int --> T): (r: seq<T>)
    requires forall k :: 0 <= k < n ==> f.requires(k)
    ensures |r| == n && forall k :: 0 <= k < n ==> r[k] == f(k)
  {
    seq(n, f)
  }

  /** JavaScript's `parts.join(sep)`. */
  function Join(parts: seq<string>, sep: string): string {
    if parts == [] then ""
    else if |parts| == 1 then parts[0]
    else parts[0] + sep + Join(parts[1..], sep)
  }

  lemma {:induction false} JoinSnoc(parts: seq<string>, sep: string, last: string)
    requires parts != []
    ensures Join(parts + [last], sep) == Join(parts, sep) + sep + last
  {
    if |parts| > 1 {
      assert (parts + [last])[1..] == parts[1..] + [last];
      JoinSnoc(parts[1..], sep, last);
    }
  }

  /** The white space of JavaScript's `\s`, which is also what `trim` removes. */
  predicate IsSpace(c: char) {
    c in {'\t', '\n', '\U{000B}', '\U{000C}', '\r', ' ', '\U{00A0}', '\U{1680}', '\U{2028}', '\U{2029}',
          '\U{202F}', '\U{205F}', '\U{3000}', '\U{FEFF}'}
    || '\U{2000}' <= c <= '\U{200A}'
  }

  /** The maximal runs of characters satisfying `keep`, left to right. */
  function Runs(s: string, keep: char -> bool): (runs: seq<string>)
    ensures forall r <- runs :: r != [] && forall c <- r :: keep(c)
    decreases |s|
  {
    if s == [] then []
    else if !keep(s[0]) then Runs(s[1..], keep)
    else
      var n := RunLength(s, keep);
      [s[..n]] + Runs(s[n..], keep)
  }

  function RunLength(s: string, keep: char -> bool): (n: nat)
    ensures n <= |s| && (forall c <- s[..n] :: keep(c))
    ensures n < |s| ==> !keep(s[n])
    ensures s != [] && keep(s[0]) ==> n > 0
  {
    if s == [] || !keep(s[0]) then 0
    else
      var n := 1 + RunLength(s[1..], keep);
      assert s[..n] == [s[0]] + s[1..][..n-1];
      n
  }

  predicate IsDigit(c: char) { '0' <= c <= '9' }

  ghost predicate AllDigits(s: string) { forall c <- s :: IsDigit(c) }

  function Digit(d: nat): (c: char)
    requires d < 10
    ensures IsDigit(c) && c as int == 48 + d
  {
    (48 + d) as char
  }

  /** `String(n)` for a natural number. */
  function Decimal(n: nat): (s: string)
    ensures s != [] && AllDigits(s)
  {
    if n < 10 then [Digit(n)] else Decimal(n / 10) + [Digit(n % 10)]
  }

  function DecimalValue(s: string): nat
    requires AllDigits(s)
  {
    if s == [] then 0
    else
      var last := s[|s|-1];
      assert IsDigit(last);
      10 * DecimalValue(s[..|s|-1]) + (last as int - 48)
  }

  lemma {:induction false} DecimalRoundTrip(n: nat)
    ensures DecimalValue(Decimal(n)) == n
  {
    if n >= 10 {
      DecimalRoundTrip(n / 10);
      assert Decimal(n)[..|Decimal(n)|-1] == Decimal(n / 10);
    }
  }

  lemma DecimalInjective(m: nat, n: nat)
    requires Decimal(m) == Decimal(n)
    ensures m == n
  {
    DecimalRoundTrip(m);
    DecimalRoundTrip(n);
  }

  function Pow10(k: nat): (p: nat)
    ensures p > 0
  {
    if k == 0 then 1 else 10 * Pow10(k - 1)
  }

  lemma {:induction false} DecimalWidth(n: nat, k: nat)
    requires k > 0
    ensures |Decimal(n)| <= k <==> n < Pow10(k)
  {
    if k == 1 {
      assert Pow10(1) == 10;
    } else if n >= 10 {
      DecimalWidth(n / 10, k - 1);
    } else {
      Pow10AtLeast10(k);
    }
  }

  lemma {:induction false} Pow10AtLeast10(k: nat)
    requires k > 0
    ensures Pow10(k) >= 10
  {
    if k > 1 { Pow10AtLeast10(k - 1); }
  }

  /** `s.padStart(width, c)`: never shortens. */
  function PadStart(s: string, width: nat, c: char): string {
    if |s| >= width then s else [c] + PadStart(s, width - 1, c)
  }

  lemma {:induction false} PadStartShape(s: string, width: nat, c: char)
    ensures |PadStart(s, width, c)| == if |s| >= width then |s| else width
    ensures AllDigits(s) && c == '0' ==>
            AllDigits(PadStart(s, width, c)) && DecimalValue(PadStart(s, width, c)) == DecimalValue(s)
  {
    if |s| < width {
      PadStartShape(s, width - 1, c);
      if AllDigits(s) && c == '0' {
        LeadingZero(PadStart(s, width - 1, c));
      }
    }
  }

  lemma {:induction false} LeadingZero(s: string)
    requires AllDigits(s)
    ensures AllDigits(['0'] + s) && DecimalValue(['0'] + s) == DecimalValue(s)
  {
    if s != [] {
      LeadingZero(s[..|s|-1]);
      assert (['0'] + s)[..|s|] == ['0'] + s[..|s|-1];
    }
  }

  lemma Regroup<T>(a: seq<T>, b: seq<T>, c: seq<T>)
    ensures (a + b) + c == a + (b + c)
  {
  }

  /** Two equal concatenations whose parts are equally long have equal parts. */
  lemma SplitEqual<T>(a: seq<T>, b: seq<T>, a': seq<T>, b': seq<T>)
    requires a + b == a' + b' && (|a| == |a'| || |b| == |b'|)
    ensures a == a' && b == b'
  {
    assert |a + b| == |a' + b'|;
    assert a == (a + b)[..|a|] && b == (a + b)[|a|..];
    assert a' == (a' + b')[..|a'|] && b' == (a' + b')[|a'|..];
  }

  lemma {:induction false} TwiceInSequence<T>(a: seq<T>, i: nat, j: nat)
    requires i < j < |a| && a[i] == a[j]
    ensures multiset(a)[a[i]] >= 2
  {
    assert a == a[..j] + [a[j]] + a[j + 1..];
    assert a[..j][i] == a[i];
    assert a[i] in multiset(a[..j]);
  }
}
