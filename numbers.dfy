/** Number text: Python's int() and float() on request strings, and the str() form of
    a fixed-point Decimal (how a DecimalField value is rendered). */
module Numbers {
  import opened Wrappers
  import opened Text

  predicate IsDigit(c: char) {
    '0' <= c <= '9'
  }

  predicate AllDigits(s: string) {
    forall i :: 0 <= i < |s| ==> IsDigit(s[i])
  }

  function DigitValue(c: char): nat
    requires IsDigit(c)
  {
    c as int - '0' as int
  }

  /** The value of a string of decimal digits, most significant first. */
  function DigitsValue(s: string): nat
    requires AllDigits(s)
  {
    if s == [] then 0 else DigitsValue(s[..|s| - 1]) * 10 + DigitValue(s[|s| - 1])
  }

  function DigitChar(d: nat): (c: char)
    requires d < 10
    ensures IsDigit(c) && DigitValue(c) == d
  {
    ('0' as int + d) as char
  }

  function Pow10(k: nat): (p: nat)
    ensures p >= 1
  {
    if k == 0 then 1 else 10 * Pow10(k - 1)
  }

  /** The shortest decimal numeral of a natural number. */
  function NatText(n: nat): (s: string)
    ensures |s| >= 1 && AllDigits(s)
  {
    if n < 10 then [DigitChar(n)] else NatText(n / 10) + [DigitChar(n % 10)]
  }

  /** Reading back a numeral gives the number it was written from. */
  lemma {:induction false} NatTextValue(n: nat)
    ensures DigitsValue(NatText(n)) == n
  {
    if n >= 10 {
      NatTextValue(n / 10);
      var s := NatText(n);
      assert s[..|s| - 1] == NatText(n / 10);
    }
  }

  /** The numeral of an integer, with a leading '-' when it is negative (Python's str(int)). */
  function IntText(i: int): (s: string)
  {
    if i < 0 then "-" + NatText(-i) else NatText(i)
  }

  /** Python's int(s) on a string: surrounding whitespace is ignored, then the rest must
      be an integer literal. None stands for the ValueError. */
  function ParseInt(s: string): Option<int>
  {
    IntLiteral(Strip(s))
  }

  /** A digit or the underscore int() allows between digits. */
  predicate DigitOrUnderscore(c: char) {
    IsDigit(c) || c == '_'
  }

  /** One or more ASCII digits, optionally grouped by single underscores between
      digits ("1_000"), as int() accepts them. */
  predicate DigitGroups(s: string) {
    && s != [] && IsDigit(s[0]) && IsDigit(s[|s| - 1])
    && (forall i :: 0 <= i < |s| ==> DigitOrUnderscore(s[i]))
    && (forall i :: 0 <= i < |s| - 1 ==> s[i] != '_' || s[i + 1] != '_')
  }

  /** The digits of a grouped run, underscores dropped. */
  function Ungroup(s: string): (r: string)
    requires forall i :: 0 <= i < |s| ==> DigitOrUnderscore(s[i])
    ensures AllDigits(r) && |r| <= |s|
  {
    if s == [] then []
    else
      assert forall i :: 0 <= i < |s| - 1 ==> s[1..][i] == s[i + 1];
      var rest := Ungroup(s[1..]);
      if s[0] == '_' then rest
      else
        assert DigitOrUnderscore(s[0]) && IsDigit(s[0]);
        assert forall i :: 1 <= i <= |rest| ==> ([s[0]] + rest)[i] == rest[i - 1];
        [s[0]] + rest
  }

  /** A run without underscores is its own digits. */
  lemma {:induction false} UngroupDigits(s: string)
    requires AllDigits(s)
    ensures Ungroup(s) == s
  {
    if s != [] {
      assert forall i :: 0 <= i < |s| - 1 ==> s[1..][i] == s[i + 1];
      UngroupDigits(s[1..]);
      assert s == [s[0]] + s[1..];
    }
  }

  /** An optional sign, then a run of digit groups. */
  function IntLiteral(t: string): Option<int>
  {
    if t != [] && (t[0] == '-' || t[0] == '+') then
      var ds := t[1..];
      if DigitGroups(ds) then
        var v: int := DigitsValue(Ungroup(ds));
        Some(if t[0] == '-' then -v else v)
      else None
    else if DigitGroups(t) then Some(DigitsValue(Ungroup(t)))
    else None
  }

  lemma {:induction false} DigitNotSpace(c: char)
    requires IsDigit(c)
    ensures !IsSpace(c)
  {
  }

  lemma {:induction false} NoPointInDigits(s: string)
    requires AllDigits(s)
    ensures '.' !in s && '-' !in s && '+' !in s
  {
    forall i | 0 <= i < |s| ensures s[i] != '.' && s[i] != '-' && s[i] != '+' {
      assert IsDigit(s[i]);
    }
  }

  /** int(str(i)) == i. */
  lemma {:induction false} ParseIntText(i: int)
    ensures ParseInt(IntText(i)) == Some(i)
  {
    if i < 0 {
      NegativeTextParses(i);
    } else {
      NatTextParses(i);
    }
  }

  lemma {:induction false} NatTextParses(i: int)
    requires i >= 0
    ensures ParseInt(IntText(i)) == Some(i)
  {
    var t := NatText(i);
    UnsignedDigitsParse(t);
    NatTextValue(i);
    assert IntText(i) == t;
  }

  lemma {:induction false} NegativeTextParses(i: int)
    requires i < 0
    ensures ParseInt(IntText(i)) == Some(i)
  {
    var n: nat := -i;
    var t := NatText(n);
    assert IntText(i) == "-" + t;
    assert DigitsValue(t) == n by {
      NatTextValue(n);
    }
    assert ParseInt("-" + t) == Some(0 - DigitsValue(t)) by {
      NegativeDigitsParse(t);
    }
  }

  /** A run of digits without underscores is a run of digit groups. */
  lemma {:induction false} DigitsAreGroups(t: string)
    requires t != [] && AllDigits(t)
    ensures DigitGroups(t) && Ungroup(t) == t
  {
    assert IsDigit(t[0]) && IsDigit(t[|t| - 1]);
    UngroupDigits(t);
  }

  /** A bare run of digits reads as its value. */
  lemma {:induction false} UnsignedDigitsParse(t: string)
    requires t != [] && AllDigits(t)
    ensures ParseInt(t) == Some(DigitsValue(t))
  {
    DigitNotSpace(t[0]);
    DigitNotSpace(t[|t| - 1]);
    StripNoOp(t);
    assert IntLiteral(t) == Some(DigitsValue(t)) by {
      DigitsAreGroups(t);
      assert IsDigit(t[0]);
    }
  }

  /** A minus sign followed by a run of digits reads as the negated value. */
  lemma {:induction false} NegativeDigitsParse(t: string)
    requires t != [] && AllDigits(t)
    ensures ParseInt("-" + t) == Some(0 - DigitsValue(t))
  {
    var s := "-" + t;
    assert IntLiteral(s) == Some(0 - DigitsValue(t)) by {
      assert s[0] == '-' && s[1..] == t;
      DigitsAreGroups(t);
    }
    assert s[|s| - 1] == t[|t| - 1];
    DigitNotSpace(t[|t| - 1]);
    StripNoOp(s);
  }

  /** int() reads digits grouped by single underscores. */
  lemma {:induction false} GroupedDigitsParse()
    ensures ParseInt("1_000") == Some(1000)
  {
    StripNoOp("1_000");
    ThousandGrouped();
    ThousandValue();
  }

  lemma {:induction false} ThousandGrouped()
    ensures DigitGroups("1_000") && Ungroup("1_000") == "1000"
  {
    var g := "1_000";
    assert g[1..] == "_000" && g[2..] == "000";
    UngroupDigits("000");
  }

  lemma {:induction false} ThousandValue()
    ensures AllDigits("1000") && DigitsValue("1000") == 1000
  {
    assert "1000"[..3] == "100" && "100"[..2] == "10" && "10"[..1] == "1";
  }

  /** int() refuses a doubled, a leading and a trailing underscore. */
  lemma {:induction false} BadGroupingsRefused()
    ensures ParseInt("1__0") == None && ParseInt("_1") == None && ParseInt("1_") == None
  {
    StripNoOp("1__0");
    assert !DigitGroups("1__0") by {
      assert "1__0"[1] == '_' && "1__0"[2] == '_';
    }
    StripNoOp("_1");
    StripNoOp("1_");
  }

  /** A decimal number as written: units / 10^places. */
  datatype Decimal = Decimal(units: int, places: nat)

  /** Shifts a decimal to `k` places (k at least its own): the same value, more digits. */
  function Units(d: Decimal, k: nat): int
    requires d.places <= k
  {
    d.units * Pow10(k - d.places)
  }

  /** Exact numeric comparison of two decimals, as Python compares float and Decimal. */
  predicate DecimalLe(a: Decimal, b: Decimal) {
    var k := if a.places < b.places then b.places else a.places;
    Units(a, k) <= Units(b, k)
  }

  lemma {:induction false} Pow10Add(i: nat, j: nat)
    ensures Pow10(i + j) == Pow10(i) * Pow10(j)
  {
    if j > 0 {
      Pow10Add(i, j - 1);
      assert Pow10(i + j) == 10 * Pow10(i + j - 1);
      MulAssoc10(Pow10(i), Pow10(j - 1));
    }
  }

  lemma MulAssoc10(x: int, y: int)
    ensures 10 * (x * y) == x * (10 * y)
  {
  }

  lemma ScaleMonotone(x: int, y: int, p: nat)
    requires p >= 1
    ensures x <= y <==> x * p <= y * p
  {
    if x <= y {
      assert y * p - x * p == (y - x) * p;
    } else {
      assert x * p - y * p == (x - y) * p;
    }
  }

  /** Writing a decimal at more places multiplies its units by the extra power of ten. */
  lemma {:induction false} UnitsRescale(d: Decimal, k: nat, n: nat)
    requires d.places <= k <= n
    ensures Units(d, n) == Units(d, k) * Pow10(n - k)
  {
    Pow10Add(k - d.places, n - k);
    assert n - d.places == (k - d.places) + (n - k);
    var u, p, q := d.units, Pow10(k - d.places), Pow10(n - k);
    assert u * (p * q) == (u * p) * q;
  }

  /** Any common number of places at least both decimals' compares them the same way. */
  lemma {:induction false} DecimalLeAt(a: Decimal, b: Decimal, n: nat)
    requires a.places <= n && b.places <= n
    ensures DecimalLe(a, b) <==> Units(a, n) <= Units(b, n)
  {
    var k := if a.places < b.places then b.places else a.places;
    UnitsRescale(a, k, n);
    UnitsRescale(b, k, n);
    ScaleMonotone(Units(a, k), Units(b, k), Pow10(n - k));
  }

  lemma {:induction false} DecimalLeTotal(a: Decimal, b: Decimal)
    ensures DecimalLe(a, b) || DecimalLe(b, a)
  {
    var k := if a.places < b.places then b.places else a.places;
    DecimalLeAt(a, b, k);
    DecimalLeAt(b, a, k);
  }

  lemma {:induction false} DecimalLeTransitive(a: Decimal, b: Decimal, c: Decimal)
    requires DecimalLe(a, b) && DecimalLe(b, c)
    ensures DecimalLe(a, c)
  {
    var n := a.places + b.places + c.places;
    DecimalLeAt(a, b, n);
    DecimalLeAt(b, c, n);
    DecimalLeAt(a, c, n);
  }

  /** The unsigned part of float(s): digits, optionally one '.', and digits, with at
      least one digit in all ("1", "1.", ".5", "1.25"). */
  function ParseUnsigned(b: string): Option<Decimal>
  {
    if '.' in b then
      var i := FirstIndex(b, '.');
      ParsePointedParts(b[..i], b[i + 1..])
    else if b != [] && AllDigits(b) then Some(Decimal(DigitsValue(b), 0))
    else None
  }

  /** "whole.frac" with at least one digit on either side of the point. */
  function ParsePointedParts(whole: string, frac: string): Option<Decimal>
  {
    if AllDigits(whole) && AllDigits(frac) && |whole| + |frac| >= 1 then
      Some(Decimal(DigitsValue(whole + frac), |frac|))
    else None
  }

  /** Python's float(s) on plain decimal numerals, kept exact; None stands for the
      ValueError. */
  function ParseDecimal(s: string): Option<Decimal>
  {
    var t := Strip(s);
    if t != [] && (t[0] == '-' || t[0] == '+') then
      match ParseUnsigned(t[1..])
      case Some(v) => Some(if t[0] == '-' then Decimal(-v.units, v.places) else v)
      case None => None
    else ParseUnsigned(t)
  }

  /** float("") is a ValueError. */
  lemma {:induction false} EmptyIsNotDecimal()
    ensures ParseDecimal("") == None
  {
    assert Strip("") == "";
    assert '.' !in "";
  }

  /** A DecimalField value: at most six places, so Python prints it without an exponent. */
  type Price = d: Decimal | d.places <= 6 witness Decimal(0, 0)

  /** n '0' characters. */
  function Zeros(n: nat): (z: string)
    ensures |z| == n
  {
    if n == 0 then "" else Zeros(n - 1) + "0"
  }

  /** `s` left-padded with '0' to `width` characters. */
  function PadZeros(s: string, width: nat): (r: string)
    ensures |r| == if |s| < width then width else |s|
  {
    if |s| < width then Zeros(width - |s|) + s else s
  }

  /** Python's str(Decimal) for a price: sign, whole part, and exactly `places`
      fraction digits after a point. */
  function DecimalText(d: Price): string
  {
    (if d.units < 0 then "-" else "") + MagnitudeText(Magnitude(d), d.places)
  }

  function Magnitude(d: Decimal): nat {
    if d.units < 0 then -d.units else d.units
  }

  /** The unsigned numeral of m / 10^places with exactly `places` fraction digits:
      the digits of m, padded with zeros so at least one is left of the point. */
  function MagnitudeText(m: nat, places: nat): string
  {
    var s := PadZeros(NatText(m), places + 1);
    if places == 0 then s else s[..|s| - places] + "." + s[|s| - places..]
  }

  lemma {:induction false} ZerosValue(n: nat)
    ensures AllDigits(Zeros(n)) && DigitsValue(Zeros(n)) == 0
  {
    if n > 0 {
      ZerosValue(n - 1);
      assert Zeros(n)[..n - 1] == Zeros(n - 1);
    }
  }

  /** Appending a digit multiplies what came before by ten. */
  lemma ShiftDigit(x: int, y: int, p: int)
    ensures (x * p + y) * 10 == x * (10 * p) + y * 10
  {
  }

  /** The value of two numerals written one after the other. */
  lemma {:induction false} DigitsConcat(a: string, b: string)
    requires AllDigits(a) && AllDigits(b)
    ensures AllDigits(a + b) && DigitsValue(a + b) == DigitsValue(a) * Pow10(|b|) + DigitsValue(b)
  {
    if b == [] {
      assert a + b == a;
    } else {
      var b' := b[..|b| - 1];
      DigitsConcat(a, b');
      assert (a + b)[..|a + b| - 1] == a + b';
      ShiftDigit(DigitsValue(a), DigitsValue(b'), Pow10(|b'|));
    }
  }

  /** The first occurrence is the one with no earlier occurrence. */
  lemma {:induction false} FirstIndexAt(s: string, c: char, i: nat)
    requires i < |s| && s[i] == c && c !in s[..i]
    ensures FirstIndex(s, c) == i
  {
  }

  lemma {:induction false} ParsePointed(whole: string, frac: string)
    requires AllDigits(whole) && AllDigits(frac) && |frac| >= 1
    ensures ParseUnsigned(whole + "." + frac) == ParsePointedParts(whole, frac)
  {
    var b := whole + "." + frac;
    assert b[|whole|] == '.';
    NoPointInDigits(whole);
    assert b[..|whole|] == whole;
    FirstIndexAt(b, '.', |whole|);
    assert b[|whole| + 1..] == frac;
  }

  /** The digits of m with leading zeros added still read as m. */
  lemma {:induction false} PaddedValue(m: nat, width: nat)
    ensures var s := PadZeros(NatText(m), width); AllDigits(s) && DigitsValue(s) == m
  {
    var f := NatText(m);
    NatTextValue(m);
    if |f| < width {
      ZerosValue(width - |f|);
      DigitsConcat(Zeros(width - |f|), f);
    }
  }

  /** The unsigned printed magnitude parses back to m units at that many places. */
  lemma {:induction false} MagnitudeTextParses(m: nat, places: nat)
    ensures ParseUnsigned(MagnitudeText(m, places)) == Some(Decimal(m, places))
  {
    if places == 0 {
      WholeTextParses(m);
    } else {
      PointedTextParses(m, places);
    }
  }

  lemma {:induction false} WholeTextParses(m: nat)
    ensures ParseUnsigned(MagnitudeText(m, 0)) == Some(Decimal(m, 0))
  {
    var s := PadZeros(NatText(m), 1);
    PaddedValue(m, 1);
    NoPointInDigits(s);
    assert MagnitudeText(m, 0) == s;
  }

  lemma {:induction false} PointedTextParses(m: nat, places: nat)
    requires places >= 1
    ensures ParseUnsigned(MagnitudeText(m, places)) == Some(Decimal(m, places))
  {
    var s := PadZeros(NatText(m), places + 1);
    PaddedValue(m, places + 1);
    var w, f := s[..|s| - places], s[|s| - places..];
    assert |f| == places;
    assert MagnitudeText(m, places) == w + "." + f;
    assert w + f == s;
    assert AllDigits(w) && AllDigits(f);
    assert ParsePointedParts(w, f) == Some(Decimal(m, places));
    ParsePointed(w, f);
  }

  /** The printed magnitude starts and ends with a digit. */
  lemma {:induction false} MagnitudeTextEnds(m: nat, places: nat)
    ensures var b := MagnitudeText(m, places); |b| >= 1 && IsDigit(b[0]) && IsDigit(b[|b| - 1])
  {
    var s := PadZeros(NatText(m), places + 1);
    PaddedValue(m, places + 1);
    assert IsDigit(s[0]) && IsDigit(s[|s| - 1]);
  }

  /** float() of a numeral with digits at both ends reads it unsigned. */
  lemma {:induction false} ParseDecimalUnsigned(body: string)
    requires |body| >= 1 && IsDigit(body[0]) && IsDigit(body[|body| - 1])
    ensures ParseDecimal(body) == ParseUnsigned(body)
  {
    DigitNotSpace(body[0]);
    DigitNotSpace(body[|body| - 1]);
    StripNoOp(body);
  }

  /** float() of '-' and a numeral with digits at both ends negates it. */
  lemma {:induction false} ParseDecimalNegative(body: string)
    requires |body| >= 1 && IsDigit(body[0]) && IsDigit(body[|body| - 1])
    ensures ParseDecimal("-" + body)
         == match ParseUnsigned(body)
            case Some(v) => Some(Decimal(-v.units, v.places))
            case None => None
  {
    var s := "-" + body;
    DigitNotSpace(body[|body| - 1]);
    assert s[|s| - 1] == body[|body| - 1];
    StripNoOp(s);
    assert s[1..] == body;
  }

  /** Reading the printed form of a price back with float() gives that price: the
      price shown in a visit summary, passed back as a price bound, selects it. */
  lemma {:induction false} DecimalTextRoundTrip(d: Price)
    ensures ParseDecimal(DecimalText(d)) == Some(d)
  {
    var m := Magnitude(d);
    assert d.units < 0 ==> m == -d.units;
    assert d.units >= 0 ==> m == d.units;
    var body := MagnitudeText(m, d.places);
    MagnitudeTextParses(m, d.places);
    MagnitudeTextEnds(m, d.places);
    if d.units < 0 {
      assert DecimalText(d) == "-" + body;
      ParseDecimalNegative(body);
    } else {
      assert DecimalText(d) == body;
      ParseDecimalUnsigned(body);
    }
  }
}
