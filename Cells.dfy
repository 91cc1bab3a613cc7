/**
 * One cell of the sales table, as pandas holds it in an object column:
 * missing (NaN or None), a string read from the CSV, or a number. Also the
 * three string markers the dirty file uses for missing data, and the
 * coercing number parser that `pd.to_numeric(..., errors='coerce')`
 * applies to a column.
 */
module Cells {
  import opened Wrappers

  datatype Cell = Null | Str(s: string) | Num(x: real)

  predicate Present(c: Cell) { !c.Null? }

  /** The values the cleaner treats as missing besides NaN itself. */
  const Sentinels: seq<string> := ["", "ERROR", "UNKNOWN"]

  predicate IsSentinel(c: Cell) { c.Str? && c.s in Sentinels }

  /** Missing in the sense of the exploratory tally: null, empty, ERROR or UNKNOWN. */
  predicate IsProblematic(c: Cell) { c.Null? || IsSentinel(c) }

  /** `replace(['', 'ERROR', 'UNKNOWN'], np.nan)` on one cell. */
  function ReplaceSentinel(c: Cell): (r: Cell)
    ensures !IsSentinel(r)
    ensures r.Null? <==> IsProblematic(c)
    ensures Present(r) ==> r == c
  {
    if IsSentinel(c) then Null else c
  }

  /** `fillna(v)` on one cell: a missing value becomes v, a present one stays. */
  function FillCell(c: Cell, v: Cell): (r: Cell)
    ensures c.Null? ==> r == v
    ensures Present(c) ==> r == c
  {
    if c.Null? then v else c
  }

  /** Element-wise product of two numeric columns; NaN on either side gives NaN. */
  function Times(a: Cell, b: Cell): (r: Cell)
    ensures r.Num? <==> a.Num? && b.Num?
    ensures r.Num? ==> r.x == a.x * b.x
  {
    if a.Num? && b.Num? then Num(a.x * b.x) else Null
  }

  // ---------------------------------------------------------------------
  // Decimal numbers: an optional sign, then digits with at most one '.', at
  // least one digit in all (so "5." and ".5" are numbers).

  predicate IsDigit(ch: char) { '0' <= ch <= '9' }

  predicate AllDigits(s: string) { forall k :: 0 <= k < |s| ==> IsDigit(s[k]) }

  predicate HasDigit(s: string) { exists k :: 0 <= k < |s| && IsDigit(s[k]) }

  function DigitValue(ch: char): nat
    requires IsDigit(ch)
  {
    ch as int - '0' as int
  }

  function DigitChar(d: nat): (ch: char)
    requires d < 10
    ensures IsDigit(ch) && DigitValue(ch) == d
  {
    ('0' as int + d) as char
  }

  /** Value of a digit string read most-significant first. */
  function DigitsValue(s: string): nat
    requires AllDigits(s)
    decreases |s|
  {
    if s == [] then 0 else 10 * DigitsValue(s[..|s| - 1]) + DigitValue(s[|s| - 1])
  }

  function Pow10(n: nat): (r: nat)
    ensures r > 0
  {
    if n == 0 then 1 else 10 * Pow10(n - 1)
  }

  /** Position of the first '.', or |s| when there is none. */
  function DotIndex(s: string): (k: nat)
    ensures k <= |s|
    ensures k < |s| ==> s[k] == '.'
  {
    if s == [] then 0 else if s[0] == '.' then 0 else 1 + DotIndex(s[1..])
  }

  /** A string of digits has no '.', so its whole part is all of it. */
  lemma {:induction false} DotIndexOfDigits(s: string)
    requires AllDigits(s)
    ensures DotIndex(s) == |s|
  {
    if s != [] {
      DotIndexOfDigits(s[1..]);
    }
  }

  /** The first '.' after a run of digits is the one right after them. */
  lemma {:induction false} DotIndexAfterDigits(a: string, b: string)
    requires AllDigits(a) && |b| > 0 && b[0] == '.'
    ensures DotIndex(a + b) == |a|
    decreases |a|
  {
    if a == [] {
      assert a + b == b;
    } else {
      assert (a + b)[0] == a[0];
      assert (a + b)[1..] == a[1..] + b;
      DotIndexAfterDigits(a[1..], b);
    }
  }

  /** The value of a whole part and a fraction of n digits: whole + frac / 10^n. */
  function DecimalValue(whole: nat, frac: nat, n: nat): real
  {
    whole as real + frac as real / Pow10(n) as real
  }

  /** The digits before and after the point, read as a number when both are digits and one is not empty. */
  function ParseParts(whole: string, frac: string): (r: Option<real>)
    ensures r.Some? ==> |whole| + |frac| > 0 && AllDigits(whole) && AllDigits(frac)
  {
    if AllDigits(whole) && AllDigits(frac) && |whole| + |frac| > 0 then
      Some(DecimalValue(DigitsValue(whole), DigitsValue(frac), |frac|))
    else
      None
  }

  /** An unsigned decimal: split at the first '.', if any. */
  function ParseUnsigned(s: string): (r: Option<real>)
    ensures r.Some? ==> HasDigit(s)
  {
    var k := DotIndex(s);
    var whole := s[..k];
    var frac := if k < |s| then s[k + 1..] else [];
    var r := ParseParts(whole, frac);
    assert r.Some? && |whole| > 0 ==> IsDigit(s[0]);
    assert r.Some? && |whole| == 0 && k < |s| ==> IsDigit(s[k + 1]);
    r
  }

  /** A parsed magnitude with its sign applied. */
  function Signed(sign: char, r: Option<real>): Option<real>
  {
    match r
    case Some(x) => Some(if sign == '-' then -x else x)
    case None => None
  }

  /** The number a string spells, if it spells one; a string with no digit never does. */
  function ParseNumber(s: string): (r: Option<real>)
    ensures r.Some? ==> HasDigit(s)
  {
    if |s| > 0 && (s[0] == '-' || s[0] == '+') then
      var r := Signed(s[0], ParseUnsigned(s[1..]));
      assert r.Some? ==> HasDigit(s) by {
        if r.Some? {
          var j :| 0 <= j < |s[1..]| && IsDigit(s[1..][j]);
          assert IsDigit(s[j + 1]);
        }
      }
      r
    else
      ParseUnsigned(s)
  }

  /** `pd.to_numeric(errors='coerce')` on one cell: numbers stay, strings are parsed, failures become NaN. */
  function ToNumeric(c: Cell): (r: Cell)
    ensures r.Null? || r.Num?
    ensures c.Num? ==> r == c
    ensures c.Null? ==> r.Null?
    ensures c.Str? ==> r == (match ParseNumber(c.s) case Some(x) => Num(x) case None => Null)
  {
    match c
    case Null => Null
    case Num(_) => c
    case Str(s) => match ParseNumber(s) case Some(x) => Num(x) case None => Null
  }

  /** The markers hold no digit, so coercing after replacing them changes nothing. */
  lemma ToNumericIgnoresSentinels(c: Cell)
    ensures ToNumeric(ReplaceSentinel(c)) == ToNumeric(c)
  {
    if IsSentinel(c) {
      assert c.s == "" || c.s == "ERROR" || c.s == "UNKNOWN";
      assert forall k :: 0 <= k < |c.s| ==> !IsDigit(c.s[k]);
    }
  }

  // ---------------------------------------------------------------------
  // Round trip with the decimal rendering of natural numbers.

  function NatToString(n: nat): (s: string)
    ensures |s| > 0 && AllDigits(s)
  {
    if n < 10 then [DigitChar(n)] else NatToString(n / 10) + [DigitChar(n % 10)]
  }

  lemma {:induction false} NatToStringValue(n: nat)
    ensures DigitsValue(NatToString(n)) == n
  {
    if n >= 10 {
      var s := NatToString(n);
      assert s[..|s| - 1] == NatToString(n / 10);
      NatToStringValue(n / 10);
    }
  }

  lemma {:induction false} ParseNatRoundTrip(n: nat)
    ensures ParseNumber(NatToString(n)) == Some(n as real)
  {
    var s := NatToString(n);
    DotIndexOfDigits(s);
    assert s[..|s|] == s;
    NatToStringValue(n);
  }

  lemma {:induction false} ParseNegatedNatRoundTrip(n: nat)
    ensures ParseNumber("-" + NatToString(n)) == Some(-(n as real))
  {
    var s := NatToString(n);
    assert ("-" + s)[1..] == s;
    ParseNatRoundTrip(n);
  }

  // ---------------------------------------------------------------------
  // Round trip with decimals written with a fraction, such as "1.5" or "3.00".

  /** The n-digit rendering of f, padded with leading zeros: the digits after the point. */
  function FracDigits(f: nat, n: nat): (s: string)
    requires f < Pow10(n)
    ensures |s| == n && AllDigits(s)
  {
    if n == 0 then [] else FracDigits(f / 10, n - 1) + [DigitChar(f % 10)]
  }

  lemma {:induction false} FracDigitsValue(f: nat, n: nat)
    requires f < Pow10(n)
    ensures DigitsValue(FracDigits(f, n)) == f
  {
    if n > 0 {
      var s := FracDigits(f, n);
      assert s[..|s| - 1] == FracDigits(f / 10, n - 1);
      FracDigitsValue(f / 10, n - 1);
    }
  }

  /** w written in decimal, a point, and f written with exactly n digits. */
  function DecimalString(w: nat, f: nat, n: nat): (s: string)
    requires f < Pow10(n)
    ensures |s| > n && IsDigit(s[0])
  {
    NatToString(w) + "." + FracDigits(f, n)
  }

  /** A whole part, a point and an n-digit fraction parse to w + f / 10^n. */
  lemma {:induction false} ParseDecimalRoundTrip(w: nat, f: nat, n: nat)
    requires n >= 1 && f < Pow10(n)
    ensures ParseNumber(DecimalString(w, f, n)) == Some(DecimalValue(w, f, n))
  {
    ParseUnsignedDecimal(w, f, n);
  }

  lemma {:induction false} ParseUnsignedDecimal(w: nat, f: nat, n: nat)
    requires f < Pow10(n)
    ensures ParseUnsigned(DecimalString(w, f, n)) == Some(DecimalValue(w, f, n))
  {
    ParseUnsignedOfParts(NatToString(w), FracDigits(f, n));
    NatToStringValue(w);
    FracDigitsValue(f, n);
  }

  /** A digit string, a point and a digit string are read as whole part and fraction. */
  lemma {:induction false} ParseUnsignedOfParts(whole: string, frac: string)
    requires |whole| > 0 && AllDigits(whole) && AllDigits(frac)
    ensures ParseUnsigned(whole + "." + frac) == Some(DecimalValue(DigitsValue(whole), DigitsValue(frac), |frac|))
  {
    var s := whole + "." + frac;
    assert s == whole + ("." + frac);
    DotIndexAfterDigits(whole, "." + frac);
    assert s[..|whole|] == whole;
    assert s[|whole| + 1..] == frac;
  }

  lemma {:induction false} ParseNegatedDecimalRoundTrip(w: nat, f: nat, n: nat)
    requires n >= 1 && f < Pow10(n)
    ensures ParseNumber("-" + DecimalString(w, f, n)) == Some(-DecimalValue(w, f, n))
  {
    ParseDecimalRoundTrip(w, f, n);
    ParseMinus(DecimalString(w, f, n), DecimalValue(w, f, n));
  }

  /** A leading minus sign negates the number the rest of the string spells. */
  lemma {:induction false} ParseMinus(s: string, v: real)
    requires ParseUnsigned(s) == Some(v)
    ensures ParseNumber("-" + s) == Some(-v)
  {
    var t := "-" + s;
    assert t[0] == '-' && t[1..] == s;
  }

  /** A price spelled with one fraction digit. */
  lemma OneAndAHalfParses()
    ensures ParseNumber("1.5") == Some(1.5)
  {
    ParseUnsignedOfParts("1", "5");
    assert "1" + "." + "5" == "1.5";
    assert "1"[..0] == [] && "5"[..0] == [];
  }

  /** A price spelled with two fraction digits. */
  lemma ThreePointZeroZeroParses()
    ensures ParseNumber("3.00") == Some(3.0)
  {
    ParseUnsignedOfParts("3", "00");
    assert "3" + "." + "00" == "3.00";
    assert "3"[..0] == [] && "00"[..1] == "0" && "0"[..0] == [];
  }
}
