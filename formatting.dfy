/** Brazilian rendering of money and plain numbers (formatar_reais and
    formatar_numero in simulador.py).

    `formatar_reais` first renders the value in the US style of Python's `,`
    format option ("1,234.56": `,` between groups of three integer digits,
    `.` before the decimals) and then exchanges the two separators with a
    chain of three `str.replace` calls that goes through a temporary `X`.

    An amount is modelled as an integer count of its smallest unit: `u`
    with `places` decimals stands for u / 10^places (centavos when
    places == 2), so the figures that `format` would print are exact. */
module Formatting {

  datatype Option<+T> = None | Some(value: T)

  predicate IsDigit(c: char) {
    '0' <= c <= '9'
  }

  predicate AllDigits(s: string) {
    forall i :: 0 <= i < |s| ==> IsDigit(s[i])
  }

  function DigitValue(c: char): nat
    requires IsDigit(c)
  {
    c as int - '0' as int
  }

  function DigitChar(d: nat): (c: char)
    requires d < 10
    ensures IsDigit(c) && DigitValue(c) == d
  {
    ('0' as int + d) as char
  }

  /** The number a string of decimal digits denotes (most significant first). */
  function Value(s: string): nat
    requires AllDigits(s)
    decreases |s|
  {
    if s == [] then 0 else 10 * Value(s[..|s| - 1]) + DigitValue(s[|s| - 1])
  }

  function Pow10(k: nat): (p: nat)
    ensures p > 0
  {
    if k == 0 then 1 else 10 * Pow10(k - 1)
  }

  function Abs(u: int): nat {
    if u < 0 then -u else u
  }

  /** The decimal digits of n, as `format` prints an integer part: no leading zero. */
  function Digits(n: nat): (s: string)
    ensures 1 <= |s| && AllDigits(s) && Value(s) == n
    ensures n > 0 ==> s[0] != '0'
    ensures n == 0 ==> s == "0"
    decreases n
  {
    if n < 10 then [DigitChar(n)]
    else
      var s := Digits(n / 10) + [DigitChar(n % 10)];
      assert s[..|s| - 1] == Digits(n / 10);
      s
  }

  /** The k decimals of a fraction r / 10^k, padded with leading zeros. */
  function FracDigits(r: nat, k: nat): (s: string)
    requires r < Pow10(k)
    ensures |s| == k && AllDigits(s) && Value(s) == r
  {
    if k == 0 then []
    else
      var s := FracDigits(r / 10, k - 1) + [DigitChar(r % 10)];
      assert s[..|s| - 1] == FracDigits(r / 10, k - 1);
      s
  }

  /** Inserts sep between groups of three digits, counted from the right. */
  function Group(d: string, sep: char): string
    decreases |d|
  {
    if |d| <= 3 then d else Group(d[..|d| - 3], sep) + [sep] + d[|d| - 3..]
  }

  /** g is one to three digits, then any number of sep followed by exactly three digits. */
  predicate Grouped(g: string, sep: char)
    decreases |g|
  {
    if |g| <= 3 then 1 <= |g| && AllDigits(g)
    else g[|g| - 4] == sep && AllDigits(g[|g| - 3..]) && Grouped(g[..|g| - 4], sep)
  }

  /** s with every occurrence of c deleted. */
  function Remove(s: string, c: char): string
    decreases |s|
  {
    if s == [] then []
    else Remove(s[..|s| - 1], c) + (if s[|s| - 1] == c then [] else [s[|s| - 1]])
  }

  /** The integer part of a / p. */
  function IntegerPart(a: nat, p: nat): nat
    requires p > 0
  {
    a / p
  }

  /** The remainder a - p * IntegerPart(a, p). */
  function FractionPart(a: nat, p: nat): (r: nat)
    requires p > 0
    ensures r < p
  {
    a % p
  }

  lemma PartsRecombine(a: nat, p: nat)
    requires p > 0
    ensures IntegerPart(a, p) * p + FractionPart(a, p) == a
  {
  }

  function SignText(u: int): string {
    if u < 0 then "-" else ""
  }

  /** The digits of the integer part of u / 10^places. */
  function IntegerDigits(u: int, places: nat): (d: string)
    ensures 1 <= |d| && AllDigits(d) && Value(d) == IntegerPart(Abs(u), Pow10(places))
    ensures d[0] == '0' ==> |d| == 1
  {
    Digits(IntegerPart(Abs(u), Pow10(places)))
  }

  /** The `places` digits of the fractional part of u / 10^places. */
  function DecimalDigits(u: int, places: nat): (f: string)
    ensures |f| == places && AllDigits(f) && Value(f) == FractionPart(Abs(u), Pow10(places))
  {
    FracDigits(FractionPart(Abs(u), Pow10(places)), places)
  }

  /** Nothing when there are no decimals, else the separator and the decimals. */
  function DecimalTail(u: int, places: nat, decimal: char): string {
    if places == 0 then "" else [decimal] + DecimalDigits(u, places)
  }

  /** The fixed-point rendering of u / 10^places with the given separators:
      an optional '-', the grouped integer digits, and, when places > 0,
      the decimal separator followed by exactly `places` digits. */
  function Fixed(u: int, places: nat, thousands: char, decimal: char): string {
    SignText(u) + Group(IntegerDigits(u, places), thousands) + DecimalTail(u, places, decimal)
  }

  /** What `format(value, ",.<places>f")` prints: "1,234.56". */
  function UsFixed(u: int, places: nat): string {
    Fixed(u, places, ',', '.')
  }

  /** The Brazilian rendering "1.234,56": the specification of both formatters. */
  function BrFixed(u: int, places: nat): string {
    Fixed(u, places, '.', ',')
  }

  /** `s.replace(pattern, replacement)` for one-character strings. */
  function Replace(s: string, pattern: char, replacement: char): (r: string)
    ensures |r| == |s|
    ensures forall i :: 0 <= i < |s| ==> r[i] == (if s[i] == pattern then replacement else s[i])
  {
    if s == [] then []
    else [if s[0] == pattern then replacement else s[0]] + Replace(s[1..], pattern, replacement)
  }

  /** `s.replace(",", "X").replace(".", ",").replace("X", ".")` */
  function ReplaceChain(s: string): string {
    Replace(Replace(Replace(s, ',', 'X'), '.', ','), 'X', '.')
  }

  function SwapSeparator(c: char): char {
    if c == ',' then '.' else if c == '.' then ',' else c
  }

  /** The intended effect of the chain: ',' and '.' exchanged, nothing else touched. */
  function SwapSeparators(s: string): string {
    seq(|s|, i requires 0 <= i < |s| => SwapSeparator(s[i]))
  }

  /** formatar_reais: None gives "R$ 0,00", any other value "R$ " and the
      separator-swapped US rendering with two decimals. */
  function FormatReais(v: Option<int>): string {
    match v
    case None => "R$ 0,00"
    case Some(u) => "R$ " + ReplaceChain(UsFixed(u, 2))
  }

  /** formatar_numero(valor, casas_decimais) */
  function FormatNumero(u: int, places: nat): string {
    ReplaceChain(UsFixed(u, places))
  }

  // ---------------------------------------------------------------------
  // The replace chain

  /** On a string without 'X' the chain exchanges every ',' with '.' and
      every '.' with ',', keeps every other character and the length. */
  lemma ChainExchangesSeparators(s: string)
    requires 'X' !in s
    ensures |ReplaceChain(s)| == |s|
    ensures forall i :: 0 <= i < |s| ==>
      && (s[i] == ',' ==> ReplaceChain(s)[i] == '.')
      && (s[i] == '.' ==> ReplaceChain(s)[i] == ',')
      && (s[i] != ',' && s[i] != '.' ==> ReplaceChain(s)[i] == s[i])
  {
  }

  /** The chain is the separator swap exactly when the string holds no 'X'
      (an 'X' already present comes out as '.'). */
  lemma ChainIsSwapIffNoX(s: string)
    ensures ReplaceChain(s) == SwapSeparators(s) <==> 'X' !in s
  {
    if 'X' in s {
      var i :| 0 <= i < |s| && s[i] == 'X';
      assert ReplaceChain(s)[i] == '.';
      assert SwapSeparators(s)[i] == 'X';
    } else {
      assert ReplaceChain(s) == SwapSeparators(s);
    }
  }

  lemma SwapInvolution(s: string)
    ensures SwapSeparators(SwapSeparators(s)) == s
  {
  }

  /** Applying the chain twice gives back a string without 'X'. */
  lemma ChainInvolution(s: string)
    requires 'X' !in s
    ensures ReplaceChain(ReplaceChain(s)) == s
  {
    ChainIsSwapIffNoX(s);
    var t := SwapSeparators(s);
    assert 'X' !in t by {
      forall i | 0 <= i < |t| ensures t[i] != 'X' {
        assert s[i] != 'X';
      }
    }
    ChainIsSwapIffNoX(t);
    SwapInvolution(s);
  }

  // ---------------------------------------------------------------------
  // Grouping

  lemma {:induction false} RemoveAppend(a: string, b: string, c: char)
    ensures Remove(a + b, c) == Remove(a, c) + Remove(b, c)
    decreases |b|
  {
    if b == [] {
      assert a + b == a;
    } else {
      var b' := b[..|b| - 1];
      assert (a + b)[..|a + b| - 1] == a + b';
      RemoveAppend(a, b', c);
    }
  }

  lemma {:induction false} RemoveAbsent(s: string, c: char)
    requires c !in s
    ensures Remove(s, c) == s
    decreases |s|
  {
    if s != [] {
      RemoveAbsent(s[..|s| - 1], c);
    }
  }

  /** Grouping a digit string yields groups of three digits counted from the right. */
  lemma {:induction false} GroupIsGrouped(d: string, sep: char)
    requires 1 <= |d| && AllDigits(d)
    ensures Grouped(Group(d, sep), sep)
    decreases |d|
  {
    if |d| > 3 {
      var h, t := d[..|d| - 3], d[|d| - 3..];
      GroupIsGrouped(h, sep);
      var gh := Group(h, sep);
      var g := gh + [sep] + t;
      assert |gh| >= 1;
      assert g[..|g| - 4] == gh;
      assert g[|g| - 3..] == t;
      assert g[|g| - 4] == sep;
    }
  }

  /** Deleting the separators of a grouped digit string gives the digits back. */
  lemma {:induction false} UngroupGroup(d: string, sep: char)
    requires AllDigits(d) && !IsDigit(sep)
    ensures Remove(Group(d, sep), sep) == d
    decreases |d|
  {
    if |d| <= 3 {
      DigitsLackSeparator(d, sep);
      RemoveAbsent(d, sep);
    } else {
      var h, t := d[..|d| - 3], d[|d| - 3..];
      var gh := Group(h, sep);
      assert Group(d, sep) == (gh + [sep]) + t;
      UngroupGroup(h, sep);
      RemoveAppend(gh + [sep], t, sep);
      RemoveAppend(gh, [sep], sep);
      assert Remove([sep], sep) == [] by {
        assert [sep][..0] == [];
      }
      assert Remove(gh + [sep], sep) == h;
      DigitsLackSeparator(t, sep);
      RemoveAbsent(t, sep);
      assert h + t == d;
    }
  }

  lemma DigitsLackSeparator(d: string, sep: char)
    requires AllDigits(d) && !IsDigit(sep)
    ensures sep !in d
  {
  }

  /** Every character of a grouped digit string is a digit or the separator. */
  lemma {:induction false} GroupAlphabet(d: string, sep: char)
    requires AllDigits(d)
    ensures forall i :: 0 <= i < |Group(d, sep)| ==> IsDigit(Group(d, sep)[i]) || Group(d, sep)[i] == sep
    decreases |d|
  {
    if |d| > 3 {
      GroupAlphabet(d[..|d| - 3], sep);
    }
  }

  /** Swapping the separators of a ','-grouped digit string regroups it with '.'. */
  lemma {:induction false} SwapGroup(d: string)
    requires AllDigits(d)
    ensures SwapSeparators(Group(d, ',')) == Group(d, '.')
    decreases |d|
  {
    if |d| > 3 {
      var h, t := d[..|d| - 3], d[|d| - 3..];
      SwapGroup(h);
      SwapAppend(Group(h, ','), [','] + t);
      assert SwapSeparators([','] + t) == ['.'] + t;
      assert Group(d, ',') == Group(h, ',') + ([','] + t);
      assert Group(d, '.') == Group(h, '.') + (['.'] + t);
    }
  }

  lemma SwapAppend(a: string, b: string)
    ensures SwapSeparators(a + b) == SwapSeparators(a) + SwapSeparators(b)
  {
  }

  // ---------------------------------------------------------------------
  // The US rendering and its swap

  /** `format` never prints an 'X', so the chain's temporary character is safe. */
  lemma UsFixedHasNoX(u: int, places: nat)
    ensures 'X' !in UsFixed(u, places)
  {
    var d := IntegerDigits(u, places);
    var g := Group(d, ',');
    var t := DecimalTail(u, places, '.');
    assert 'X' !in g by {
      GroupAlphabet(d, ',');
      forall i | 0 <= i < |g| ensures g[i] != 'X' {
      }
    }
    assert 'X' !in t by {
      if places > 0 {
        var f := DecimalDigits(u, places);
        assert 'X' !in f by {
          forall i | 0 <= i < |f| ensures f[i] != 'X' {
          }
        }
        assert t == ['.'] + f;
      }
    }
    assert UsFixed(u, places) == SignText(u) + g + t;
  }

  lemma SwapKeepsDigits(s: string)
    requires AllDigits(s)
    ensures SwapSeparators(s) == s
  {
  }

  /** Exchanging the separators of the US rendering gives the Brazilian one. */
  lemma SwapFixed(u: int, places: nat)
    ensures SwapSeparators(UsFixed(u, places)) == BrFixed(u, places)
  {
    var sign, d := SignText(u), IntegerDigits(u, places);
    var tailUs, tailBr := DecimalTail(u, places, '.'), DecimalTail(u, places, ',');
    SwapAppend(sign + Group(d, ','), tailUs);
    SwapAppend(sign, Group(d, ','));
    SwapGroup(d);
    assert SwapSeparators(sign) == sign;
    assert SwapSeparators(tailUs) == tailBr by {
      if places > 0 {
        var f := DecimalDigits(u, places);
        SwapAppend(['.'], f);
        SwapKeepsDigits(f);
      }
    }
  }

  /** formatar_reais: "R$ 0,00" for None, otherwise "R$ " and the
      Brazilian two-decimal rendering. */
  lemma FormatReaisIsBrazilian(v: Option<int>)
    ensures v.None? ==> FormatReais(v) == "R$ 0,00"
    ensures v.Some? ==> FormatReais(v) == "R$ " + BrFixed(v.value, 2)
  {
    if v.Some? {
      UsFixedHasNoX(v.value, 2);
      ChainIsSwapIffNoX(UsFixed(v.value, 2));
      SwapFixed(v.value, 2);
    }
  }

  /** A missing value renders exactly like an amount of zero. */
  lemma NoneRendersAsZero()
    ensures FormatReais(None) == FormatReais(Some(0))
  {
    assert FormatReais(Some(0)) == "R$ " + BrFixed(0, 2) by {
      FormatReaisIsBrazilian(Some(0));
    }
    ZeroRendering();
    PrefixZero();
  }

  lemma PrefixZero()
    ensures "R$ " + "0,00" == "R$ 0,00"
  {
  }

  lemma ZeroRendering()
    ensures BrFixed(0, 2) == "0,00"
  {
    assert IntegerDigits(0, 2) == "0" by {
      assert IntegerPart(0, Pow10(2)) == 0;
      assert Digits(0) == "0";
    }
    assert DecimalDigits(0, 2) == "00" by {
      assert Pow10(2) == 100;
      assert FractionPart(0, 100) == 0;
      assert FracDigits(0, 1) == "0";
      assert FracDigits(0, 2) == "00";
    }
    assert Group("0", '.') == "0";
    assert DecimalTail(0, 2, ',') == ",00";
  }

  /** formatar_reais is "R$ " followed by formatar_numero with its default two decimals. */
  lemma FormatReaisUsesNumero(u: int)
    ensures FormatReais(Some(u)) == "R$ " + FormatNumero(u, 2)
  {
  }

  /** formatar_numero gives the Brazilian rendering, and the chain applied to
      it once more gives the US rendering back. */
  lemma FormatNumeroIsBrazilian(u: int, places: nat)
    ensures FormatNumero(u, places) == BrFixed(u, places)
    ensures ReplaceChain(FormatNumero(u, places)) == UsFixed(u, places)
  {
    UsFixedHasNoX(u, places);
    ChainIsSwapIffNoX(UsFixed(u, places));
    SwapFixed(u, places);
    ChainInvolution(UsFixed(u, places));
  }

  /** The pieces of a string made of a prefix, a middle, a separator and a tail. */
  lemma PiecesAround(sign: string, g: string, c: char, f: string)
    ensures var s := sign + g + ([c] + f);
      var k := |sign| + |g|;
      && |s| == k + 1 + |f|
      && s[..k] == sign + g
      && s[|sign|..k] == g
      && s[k] == c
      && s[k + 1..] == f
  {
    var s := sign + g + ([c] + f);
    var k := |sign| + |g|;
    assert s[..k] == sign + g;
    assert s[k + 1..] == f;
  }

  /** The grouped integer digits of a rendering: no ',', no '-', groups of
      three from the right, and the digits read back. */
  lemma GroupedIntegerDigits(d: string, g: string)
    requires 1 <= |d| && AllDigits(d) && (d[0] == '0' ==> |d| == 1)
    requires g == Group(d, '.')
    ensures |g| >= 1 && g[0] != '-' && (g[0] == '0' ==> |g| == 1)
    ensures ',' !in g && Grouped(g, '.')
    ensures Remove(g, '.') == d
  {
    GroupIsGrouped(d, '.');
    UngroupGroup(d, '.');
    GroupAlphabet(d, '.');
    GroupHead(d, '.');
  }

  /** Grouping keeps the first digit in front. */
  lemma {:induction false} GroupHead(d: string, sep: char)
    requires 1 <= |d|
    ensures |Group(d, sep)| >= 1 && Group(d, sep)[0] == d[0]
    ensures |d| <= 3 ==> Group(d, sep) == d
    decreases |d|
  {
    if |d| > 3 {
      var h := d[..|d| - 3];
      GroupHead(h, sep);
      assert Group(d, sep) == Group(h, sep) + ([sep] + d[|d| - 3..]);
    }
  }

  /** s is laid out as a Brazilian rendering with `places` decimals: a
      leading '-' exactly when negative, a single ',' followed by exactly
      `places` digits, and '.' between groups of three integer digits
      counted from the right, the first of them '0' only when it is the
      only one. */
  predicate BrazilianLayout(s: string, places: nat, negative: bool) {
    var lead := if negative then 1 else 0;
    var k := |s| - places - 1;
    && 0 <= lead < k
    && (s[0] == '-' <==> negative)
    && s[k] == ','
    && ',' !in s[..k]
    && Grouped(s[lead..k], '.')
    && (s[lead] == '0' ==> k == lead + 1)
    && AllDigits(s[k + 1..])
  }

  /** The digits of such a rendering, read without the '.' and the ',',
      give the amount in units of 10^-places. */
  predicate ReadsAs(s: string, places: nat, negative: bool, amount: nat)
    requires (if negative then 1 else 0) <= |s| - places - 1
  {
    var lead := if negative then 1 else 0;
    var k := |s| - places - 1;
    var digits := Remove(s[lead..k], '.') + s[k + 1..];
    AllDigits(digits) && Value(digits) == amount
  }

  /** s is a Brazilian rendering of the amount +-amount / 10^places. */
  predicate BrazilianAmount(s: string, places: nat, negative: bool, amount: nat) {
    BrazilianLayout(s, places, negative) && ReadsAs(s, places, negative, amount)
  }

  /** The Brazilian rendering with decimals has that shape and reads back as the amount. */
  lemma BrFixedReadsBack(u: int, places: nat)
    requires places >= 1
    ensures BrazilianAmount(BrFixed(u, places), places, u < 0, Abs(u))
  {
    var d, f := IntegerDigits(u, places), DecimalDigits(u, places);
    var g := Group(d, '.');
    assert BrFixed(u, places) == SignText(u) + g + ([','] + f);
    GroupedIntegerDigits(d, g);
    var a, p := Abs(u), Pow10(places);
    assert Value(d + f) == a by {
      ValueAppend(d, f);
      PartsRecombine(a, p);
    }
    PiecesAreBrazilian(SignText(u), g, f, places, u < 0, a);
  }

  /** Reading two digit strings one after the other. */
  lemma {:induction false} ValueAppend(a: string, b: string)
    requires AllDigits(a) && AllDigits(b)
    ensures AllDigits(a + b) && Value(a + b) == Value(a) * Pow10(|b|) + Value(b)
    decreases |b|
  {
    if b == [] {
      assert a + b == a;
    } else {
      var b' := b[..|b| - 1];
      var c := b[|b| - 1];
      assert (a + b)[..|a + b| - 1] == a + b';
      ValueAppend(a, b');
      var x, q, y := Value(a), Pow10(|b'|), Value(b');
      assert Value(a + b) == 10 * Value(a + b') + DigitValue(c);
      assert Value(a + b') == x * q + y;
      assert Pow10(|b|) == 10 * q;
      assert Value(b) == 10 * y + DigitValue(c);
      MulShift(x, q);
    }
  }

  lemma MulShift(x: nat, q: nat)
    ensures 10 * (x * q) == x * (10 * q)
  {
  }

  /** Sign, grouped digits, ',' and decimals assemble into a Brazilian rendering. */
  lemma PiecesAreBrazilian(sign: string, g: string, f: string, places: nat, negative: bool, amount: nat)
    requires sign == if negative then "-" else ""
    requires 1 <= |g| && g[0] != '-' && (g[0] == '0' ==> |g| == 1)
    requires ',' !in g && Grouped(g, '.')
    requires |f| == places && AllDigits(f)
    requires AllDigits(Remove(g, '.') + f) && Value(Remove(g, '.') + f) == amount
    ensures BrazilianAmount(sign + g + ([','] + f), places, negative, amount)
  {
    PiecesLayout(sign, g, f, places, negative);
    PiecesReadAs(sign + g + ([','] + f), g, f, places, negative, amount);
  }

  lemma PiecesReadAs(s: string, g: string, f: string, places: nat, negative: bool, amount: nat)
    requires |f| == places
    requires s == (if negative then "-" else "") + g + ([','] + f)
    requires AllDigits(Remove(g, '.') + f) && Value(Remove(g, '.') + f) == amount
    ensures ReadsAs(s, places, negative, amount)
  {
    var sign: string := if negative then "-" else "";
    PiecesAround(sign, g, ',', f);
    var lead := if negative then 1 else 0;
    var k := |s| - places - 1;
    assert s[lead..k] == g && s[k + 1..] == f;
  }

  lemma PiecesLayout(sign: string, g: string, f: string, places: nat, negative: bool)
    requires sign == if negative then "-" else ""
    requires 1 <= |g| && g[0] != '-' && (g[0] == '0' ==> |g| == 1)
    requires ',' !in g && Grouped(g, '.')
    requires |f| == places && AllDigits(f)
    ensures BrazilianLayout(sign + g + ([','] + f), places, negative)
  {
    var s := sign + g + ([','] + f);
    PiecesAround(sign, g, ',', f);
    var k := |sign| + |g|;
    assert ',' !in s[..k];
    assert s[0] == '-' <==> negative by {
      if !negative {
        assert s[0] == g[0];
      }
    }
    assert s[|sign|] == g[0];
  }

  /** Without decimals the Brazilian rendering has no ',' at all. */
  lemma BrFixedWholeHasNoComma(u: int)
    ensures ',' !in BrFixed(u, 0)
  {
    var d := IntegerDigits(u, 0);
    GroupedIntegerDigits(d, Group(d, '.'));
    assert BrFixed(u, 0) == SignText(u) + Group(d, '.') + "";
  }
}
